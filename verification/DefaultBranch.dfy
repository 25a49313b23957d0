/** Which branch is a repository's default: read from a remote's HEAD, or, when
    no remote has one, adopted from what the checkouts track and recorded as
    that HEAD (baude-core/src/git.rs). */
module DefaultBranch {
  import opened Prelude
  import opened GitTypes

  type Ref = string

  datatype RefValue = Commit | Symbolic(to: Ref)

  type Refs = map<Ref, RefValue>

  /** The upstream configured for a branch: its remote's name and the ref it tracks. */
  datatype Upstream = Upstream(remote: string, ref: Ref)

  /** The parts of a repository no resolution changes. */
  datatype Setup = Setup(upstreams: map<Ref, Upstream>, snapshot: RepositorySnapshot, works: Probe -> bool)

  /** One Git command; any of them may fail. */
  datatype Probe = ReadSymbolic(ref: Ref) | Verify(ref: Ref) | ReadRemoteName(ref: Ref) | ReadUpstream(ref: Ref) | WriteSymbolic(ref: Ref)

  datatype Default = Default(remote: string, remoteRef: Ref, localBranch: string, localRef: Ref)

  datatype Unavailable =
    | MalformedMainHead
    | DetachedMainHead
    | UnbornMainHead(head: Ref)
    | MalformedTarget(remote: string, target: Ref)
    | DanglingTarget(remote: string, target: Ref)
    | AmbiguousTrackedDefault(remote: string, targets: seq<Ref>)
    | NoCandidate(remotes: seq<string>)
    | UnsupportedCommand(probe: Probe)

  const HEADS := "refs/heads/"
  const REMOTES := "refs/remotes/"
  const HEAD := "HEAD"
  /** How many symbolic refs Git follows in a row. */
  const MAX_DEPTH: nat := 4

  /** The ref leads to a commit. */
  predicate Leads(refs: Refs, ref: Ref, depth: nat)
    decreases depth
  {
    ref in refs && (refs[ref].Commit? || (depth > 0 && Leads(refs, refs[ref].to, depth - 1)))
  }

  predicate Exists(refs: Refs, ref: Ref) {
    Leads(refs, ref, MAX_DEPTH)
  }

  /** A ref that holds a commit itself. */
  predicate Ordinary(refs: Refs, ref: Ref) {
    ref in refs && refs[ref].Commit?
  }

  /** Where a chain of symbolic refs ends; the end need not exist. */
  function End(refs: Refs, ref: Ref, depth: nat): (end: Option<Ref>)
    ensures end.Some? ==> end.value in refs ==> refs[end.value].Commit?
    decreases depth
  {
    if ref !in refs || refs[ref].Commit? then Some(ref)
    else if depth == 0 then None
    else End(refs, refs[ref].to, depth - 1)
  }

  /** What asking for a symbolic ref answers: the end of its chain, unless the
      ref is not symbolic, or the chain is too long for Git to follow. */
  datatype Reading = NotSymbolic | PointsAt(ref: Ref) | TooDeep

  function ReadChain(refs: Refs, ref: Ref): Reading {
    if ref !in refs || refs[ref].Commit? then NotSymbolic
    else
      var end := End(refs, ref, MAX_DEPTH);
      if end.None? then TooDeep else PointsAt(end.value)
  }

  function Prefix(remote: string): Ref {
    REMOTES + remote + "/"
  }

  function RemoteHead(remote: string): Ref {
    Prefix(remote) + "HEAD"
  }

  /** What follows the prefix, if something does. */
  function Stripped(ref: Ref, prefix: Ref): (rest: Option<string>)
    ensures rest.Some? <==> prefix <= ref && ref != prefix
    ensures rest.Some? ==> rest.value != "" && ref == prefix + rest.value
  {
    if prefix <= ref && ref != prefix then Some(ref[|prefix|..]) else None
  }

  function DefaultOf(remote: string, ref: Ref, branch: string): Default {
    Default(remote, ref, branch, HEADS + branch)
  }

  // ----- The main worktree's own branch -----

  function MainBranch(s: Setup, refs: Refs): Result<Ref, Unavailable> {
    if s.snapshot.worktrees == [] || s.snapshot.worktrees[0].path != s.snapshot.mainWorktree then Err(MalformedMainHead)
    else if s.snapshot.worktrees[0].detached then Err(DetachedMainHead)
    else if !s.works(ReadSymbolic(HEAD)) then Err(UnsupportedCommand(ReadSymbolic(HEAD)))
    else
      match ReadChain(refs, HEAD)
      case TooDeep => Err(UnsupportedCommand(ReadSymbolic(HEAD)))
      case NotSymbolic => Err(DetachedMainHead)
      case PointsAt(head) =>
        if Stripped(head, HEADS).None? || s.snapshot.worktrees[0].branch != Some(head) then Err(MalformedMainHead)
        else if !s.works(Verify(head)) then Err(UnsupportedCommand(Verify(head)))
        else if !Exists(refs, head) then Err(UnbornMainHead(head))
        else Ok(head)
  }

  /** The main branch's remote first, then `origin`. */
  function Remotes(s: Setup, head: Ref): seq<string> {
    var upstream := if head in s.upstreams then s.upstreams[head].remote else "";
    var first := if upstream != "" && upstream != "." then [upstream] else [];
    if "origin" in first then first else first + ["origin"]
  }

  // ----- A remote's recorded HEAD -----

  datatype Scan = Found(default_: Default) | Refused(why: Unavailable) | Nothing(dangling: Option<(string, Ref)>)

  function ScanRemotes(s: Setup, refs: Refs, remotes: seq<string>, dangling: Option<(string, Ref)>): Scan
    decreases remotes
  {
    if remotes == [] then Nothing(dangling)
    else
      var remote := remotes[0];
      var head := RemoteHead(remote);
      if !s.works(ReadSymbolic(head)) then Refused(UnsupportedCommand(ReadSymbolic(head)))
      else
        match ReadChain(refs, head)
        case TooDeep => Refused(UnsupportedCommand(ReadSymbolic(head)))
        case NotSymbolic => ScanRemotes(s, refs, remotes[1..], dangling)
        case PointsAt(target) =>
          var branch := Stripped(target, Prefix(remote));
          if branch.None? then Refused(MalformedTarget(remote, target))
          else if !s.works(Verify(target)) then Refused(UnsupportedCommand(Verify(target)))
          else if Exists(refs, target) then Found(DefaultOf(remote, target, branch.value))
          else ScanRemotes(s, refs, remotes[1..], Some((remote, target)))
  }

  // ----- What a branch tracks -----

  datatype Tracked = Tracked(remote: string, ref: Ref, branch: string)

  /** The first remote whose branches the target is among. */
  function RemoteOf(target: Ref, remotes: seq<string>): (found: Option<Tracked>)
    ensures found.Some? ==> found.value.remote in remotes && found.value.ref == target
    ensures found.Some? ==> found.value.branch != "" && target == Prefix(found.value.remote) + found.value.branch
  {
    if remotes == [] then None
    else
      var branch := Stripped(target, Prefix(remotes[0]));
      if branch.Some? then Some(Tracked(remotes[0], target, branch.value)) else RemoteOf(target, remotes[1..])
  }

  function TrackedUpstream(s: Setup, refs: Refs, branch: Ref, remotes: seq<string>): (tracked: Result<Option<Tracked>, Unavailable>)
    ensures tracked.Ok? && tracked.value.Some? ==>
      Exists(refs, tracked.value.value.ref) && s.works(Verify(tracked.value.value.ref)) && RemoteOf(tracked.value.value.ref, remotes) == tracked.value
  {
    if !s.works(ReadUpstream(branch)) then Err(UnsupportedCommand(ReadUpstream(branch)))
    else if branch !in s.upstreams || s.upstreams[branch].ref == "" then Ok(None)
    else
      var target := s.upstreams[branch].ref;
      var found := RemoteOf(target, remotes);
      if found.None? then Ok(None)
      else if !s.works(Verify(target)) then Err(UnsupportedCommand(Verify(target)))
      else if !Exists(refs, target) then Ok(None)
      else Ok(found)
  }

  /** A linked worktree has a say unless it is detached, prunable, or on the main branch. */
  predicate Votes(w: WorktreeRecord, head: Ref): (votes: bool)
    ensures votes ==> w.branch.Some?
  {
    !w.detached && !w.prunable && w.branch.Some? && w.branch.value != head
  }

  /** The distinct refs the voters track, in order of first mention. */
  function Candidates(s: Setup, refs: Refs, voters: seq<WorktreeRecord>, head: Ref, remotes: seq<string>): Result<seq<Tracked>, Unavailable> {
    if voters == [] then Ok([])
    else
      var earlier := Candidates(s, refs, voters[..|voters| - 1], head, remotes);
      var w := voters[|voters| - 1];
      if earlier.Err? || !Votes(w, head) then earlier
      else
        var tracked := TrackedUpstream(s, refs, w.branch.value, remotes);
        if tracked.Err? then Err(tracked.error)
        else if tracked.value.None? || exists known <- earlier.value :: known.ref == tracked.value.value.ref then earlier
        else Ok(earlier.value + [tracked.value.value])
  }

  /** Whose upstream to adopt: the main branch's, else the one all voters agree on. */
  function Elected(s: Setup, refs: Refs, head: Ref, remotes: seq<string>): Result<Option<Tracked>, Unavailable> {
    var main := TrackedUpstream(s, refs, head, remotes);
    if main.Err? || main.value.Some? then main
    else
      var voters := if s.snapshot.worktrees == [] then [] else s.snapshot.worktrees[1..];
      var candidates := Candidates(s, refs, voters, head, remotes);
      if candidates.Err? then Err(candidates.error)
      else if |candidates.value| > 1 then Err(AmbiguousTrackedDefault(candidates.value[0].remote, RefsOf(candidates.value)))
      else Ok(if candidates.value == [] then None else Some(candidates.value[0]))
  }

  function RefsOf(candidates: seq<Tracked>): seq<Ref> {
    seq(|candidates|, i requires 0 <= i < |candidates| => candidates[i].ref)
  }

  // ----- Resolving -----

  function Adopt(s: Setup, refs: Refs, head: Ref, remotes: seq<string>): (Refs, Result<Default, Unavailable>) {
    var elected := Elected(s, refs, head, remotes);
    if elected.Err? then (refs, Err(elected.error))
    else if elected.value.None? then (refs, Err(NoCandidate(remotes)))
    else
      var t := elected.value.value;
      var name := RemoteHead(t.remote);
      if !s.works(WriteSymbolic(name)) then (refs, Err(UnsupportedCommand(WriteSymbolic(name))))
      else (refs[name := Symbolic(t.ref)], Ok(DefaultOf(t.remote, t.ref, t.branch)))
  }

  function Resolve(s: Setup, refs: Refs): (Refs, Result<Default, Unavailable>) {
    var main := MainBranch(s, refs);
    if main.Err? then (refs, Err(main.error))
    else if !s.works(ReadRemoteName(main.value)) then (refs, Err(UnsupportedCommand(ReadRemoteName(main.value))))
    else
      var remotes := Remotes(s, main.value);
      match ScanRemotes(s, refs, remotes, None)
      case Found(d) => (refs, Ok(d))
      case Refused(why) => (refs, Err(why))
      case Nothing(Some(d)) => (refs, Err(DanglingTarget(d.0, d.1)))
      case Nothing(None) => Adopt(s, refs, main.value, remotes)
  }

  /** The repository's refs, where an adoption is recorded. */
  class RefStore {
    var refs: Refs

    constructor (refs: Refs)
      ensures this.refs == refs
    {
      this.refs := refs;
    }

    method ScanHeads(s: Setup, remotes: seq<string>) returns (scan: Scan)
      ensures scan == ScanRemotes(s, refs, remotes, None)
    {
      var dangling: Option<(string, Ref)> := None;
      for i := 0 to |remotes|
        invariant ScanRemotes(s, refs, remotes, None) == ScanRemotes(s, refs, remotes[i..], dangling)
      {
        var remote := remotes[i];
        var head := RemoteHead(remote);
        if !s.works(ReadSymbolic(head)) { return Refused(UnsupportedCommand(ReadSymbolic(head))); }
        var reading := ReadChain(refs, head);
        if reading.TooDeep? { return Refused(UnsupportedCommand(ReadSymbolic(head))); }
        if reading.NotSymbolic? { continue; }
        var target := reading.ref;
        var branch := Stripped(target, Prefix(remote));
        if branch.None? { return Refused(MalformedTarget(remote, target)); }
        if !s.works(Verify(target)) { return Refused(UnsupportedCommand(Verify(target))); }
        if Exists(refs, target) { return Found(DefaultOf(remote, target, branch.value)); }
        dangling := Some((remote, target));
      }
      scan := Nothing(dangling);
    }

    method CollectCandidates(s: Setup, voters: seq<WorktreeRecord>, head: Ref, remotes: seq<string>)
      returns (result: Result<seq<Tracked>, Unavailable>)
      ensures result == Candidates(s, refs, voters, head, remotes)
    {
      var candidates: seq<Tracked> := [];
      for i := 0 to |voters|
        invariant Candidates(s, refs, voters[..i], head, remotes) == Ok(candidates)
      {
        assert voters[..i + 1][..i] == voters[..i];
        var w := voters[i];
        if !Votes(w, head) { continue; }
        var tracked := TrackedUpstream(s, refs, w.branch.value, remotes);
        if tracked.Err? {
          CandidatesFail(s, refs, voters, i + 1, head, remotes);
          return Err(tracked.error);
        }
        if tracked.value.None? || exists known <- candidates :: known.ref == tracked.value.value.ref { continue; }
        candidates := candidates + [tracked.value.value];
      }
      assert voters[..|voters|] == voters;
      result := Ok(candidates);
    }

    method ResolveDefaultBranch(s: Setup) returns (result: Result<Default, Unavailable>)
      modifies this
      ensures (refs, result) == Resolve(s, old(refs))
    {
      hide ScanRemotes, Candidates, MainBranch, TrackedUpstream;
      var main := MainBranch(s, refs);
      if main.Err? { return Err(main.error); }
      if !s.works(ReadRemoteName(main.value)) { return Err(UnsupportedCommand(ReadRemoteName(main.value))); }
      var remotes := Remotes(s, main.value);
      var scan := ScanHeads(s, remotes);
      match scan {
        case Found(d) => return Ok(d);
        case Refused(why) => return Err(why);
        case Nothing(Some(d)) => return Err(DanglingTarget(d.0, d.1));
        case Nothing(None) =>
      }
      var tracked := TrackedUpstream(s, refs, main.value, remotes);
      if tracked.Err? { return Err(tracked.error); }
      var elected := tracked.value;
      if elected.None? {
        var candidates := CollectCandidates(s, if s.snapshot.worktrees == [] then [] else s.snapshot.worktrees[1..], main.value, remotes);
        if candidates.Err? { return Err(candidates.error); }
        if |candidates.value| > 1 { return Err(AmbiguousTrackedDefault(candidates.value[0].remote, RefsOf(candidates.value))); }
        if candidates.value == [] { return Err(NoCandidate(remotes)); }
        elected := Some(candidates.value[0]);
      }
      var t := elected.value;
      var name := RemoteHead(t.remote);
      if !s.works(WriteSymbolic(name)) { return Err(UnsupportedCommand(WriteSymbolic(name))); }
      refs := refs[name := Symbolic(t.ref)];
      result := Ok(DefaultOf(t.remote, t.ref, t.branch));
    }
  }

  lemma {:induction false} CandidatesFail(s: Setup, refs: Refs, voters: seq<WorktreeRecord>, n: nat, head: Ref, remotes: seq<string>)
    requires n <= |voters| && Candidates(s, refs, voters[..n], head, remotes).Err?
    ensures Candidates(s, refs, voters, head, remotes) == Candidates(s, refs, voters[..n], head, remotes)
    decreases |voters|
  {
    if n < |voters| {
      assert voters[..|voters| - 1][..n] == voters[..n];
      CandidatesFail(s, refs, voters[..|voters| - 1], n, head, remotes);
    } else {
      assert voters[..n] == voters;
    }
  }

  // ----- What a resolution may claim and write -----

  /** The default names a branch of a remote the repository may use, and a commit stands behind it. */
  predicate Sound(s: Setup, refs: Refs, d: Default) {
    && MainBranch(s, refs).Ok? && d.remote in Remotes(s, MainBranch(s, refs).value)
    && d.localBranch != "" && d.remoteRef == Prefix(d.remote) + d.localBranch && d.localRef == HEADS + d.localBranch
    && Exists(refs, d.remoteRef)
  }

  /** No remote has a HEAD that points anywhere. */
  predicate Headless(s: Setup, refs: Refs, remotes: seq<string>) {
    forall r <- remotes :: NoHead(s, refs, r)
  }

  predicate NoHead(s: Setup, refs: Refs, remote: string) {
    s.works(ReadSymbolic(RemoteHead(remote))) && (RemoteHead(remote) !in refs || refs[RemoteHead(remote)].Commit?)
  }

  lemma {:induction false} ScanFinds(s: Setup, refs: Refs, remotes: seq<string>, dangling: Option<(string, Ref)>)
    ensures match ScanRemotes(s, refs, remotes, dangling)
      case Found(d) => d.remote in remotes && d.localBranch != "" && d.remoteRef == Prefix(d.remote) + d.localBranch
        && d.localRef == HEADS + d.localBranch && Exists(refs, d.remoteRef) && Ordinary(refs, d.remoteRef)
      case Nothing(None) => dangling.None? && Headless(s, refs, remotes)
      case _ => true
    decreases remotes
  {
    hide RemoteHead, Prefix, End;
    if remotes != [] {
      ScanFinds(s, refs, remotes[1..], dangling);
      var head := RemoteHead(remotes[0]);
      if ReadChain(refs, head).PointsAt? { ScanFinds(s, refs, remotes[1..], Some((remotes[0], ReadChain(refs, head).ref))); }
    }
  }

  /** An error writes nothing; an answer is sound; and the only write there ever
      is points the HEAD of a remote that had none at the branch answered. */
  lemma ResolutionIsConservative(s: Setup, refs: Refs)
    ensures var (refs', r) := Resolve(s, refs);
      && (r.Err? ==> refs' == refs)
      && (r.Ok? ==> Sound(s, refs, r.value))
      && (refs' != refs ==> Headless(s, refs, Remotes(s, MainBranch(s, refs).value))
                            && refs' == refs[RemoteHead(r.value.remote) := Symbolic(r.value.remoteRef)])
  {
    hide ScanRemotes, Candidates, Headless, Leads, RemoteHead, Prefix, Votes, MainBranch;
    var main := MainBranch(s, refs);
    if main.Ok? {
      ScanFinds(s, refs, Remotes(s, main.value), None);
      ElectedIsTracked(s, refs, main.value, Remotes(s, main.value));
    }
  }

  // ----- The election -----

  /** Some voter tracks this ref. */
  predicate TrackedBy(s: Setup, refs: Refs, voters: seq<WorktreeRecord>, head: Ref, remotes: seq<string>, t: Tracked) {
    exists w <- voters :: Names(s, refs, w, head, remotes, t)
  }

  predicate Names(s: Setup, refs: Refs, w: WorktreeRecord, head: Ref, remotes: seq<string>, t: Tracked) {
    w.branch.Some? && w.branch.value != head && !w.detached && !w.prunable
    && TrackedUpstream(s, refs, w.branch.value, remotes) == Ok(Some(t))
  }

  /** Exactly the refs the voters track, each once. */
  ghost predicate Tally(s: Setup, refs: Refs, voters: seq<WorktreeRecord>, head: Ref, remotes: seq<string>, candidates: seq<Tracked>) {
    && (forall t :: t in candidates ==> TrackedBy(s, refs, voters, head, remotes, t))
    && (forall t :: TrackedBy(s, refs, voters, head, remotes, t) ==> t in candidates)
    && (forall i, j | 0 <= i < j < |candidates| :: candidates[i].ref != candidates[j].ref)
  }

  lemma SameRefSameTracked(s: Setup, refs: Refs, v: WorktreeRecord, w: WorktreeRecord, head: Ref, remotes: seq<string>, t: Tracked, u: Tracked)
    requires Names(s, refs, v, head, remotes, t) && Names(s, refs, w, head, remotes, u) && t.ref == u.ref
    ensures t == u
  {
  }

  /** What one more voter adds. */
  lemma OneMoreCandidate(s: Setup, refs: Refs, init: seq<WorktreeRecord>, w: WorktreeRecord, head: Ref, remotes: seq<string>)
    requires Candidates(s, refs, init + [w], head, remotes).Ok?
    ensures var before, after := Candidates(s, refs, init, head, remotes), Candidates(s, refs, init + [w], head, remotes).value;
      && before.Ok?
      && ((forall t :: !Names(s, refs, w, head, remotes, t)) ==> after == before.value)
      && forall t | Names(s, refs, w, head, remotes, t) ::
        after == if exists known <- before.value :: known.ref == t.ref then before.value else before.value + [t]
  {
    hide TrackedUpstream;
    assert (init + [w])[..|init|] == init;
    if Votes(w, head) && TrackedUpstream(s, refs, w.branch.value, remotes).Ok? && TrackedUpstream(s, refs, w.branch.value, remotes).value.Some? {
      assert Names(s, refs, w, head, remotes, TrackedUpstream(s, refs, w.branch.value, remotes).value.value);
    }
  }

  lemma {:induction false} CandidatesTally(s: Setup, refs: Refs, voters: seq<WorktreeRecord>, head: Ref, remotes: seq<string>)
    ensures var c := Candidates(s, refs, voters, head, remotes); c.Ok? ==> Tally(s, refs, voters, head, remotes, c.value)
  {
    var c := Candidates(s, refs, voters, head, remotes);
    if c.Ok? && voters != [] {
      var init, w := voters[..|voters| - 1], voters[|voters| - 1];
      CandidatesTally(s, refs, init, head, remotes);
      assert voters == init + [w];
      OneMoreVoter(s, refs, init, w, head, remotes);
    }
  }

  lemma OneMoreVoter(s: Setup, refs: Refs, init: seq<WorktreeRecord>, w: WorktreeRecord, head: Ref, remotes: seq<string>)
    requires Candidates(s, refs, init + [w], head, remotes).Ok? && Candidates(s, refs, init, head, remotes).Ok?
    requires Tally(s, refs, init, head, remotes, Candidates(s, refs, init, head, remotes).value)
    ensures Tally(s, refs, init + [w], head, remotes, Candidates(s, refs, init + [w], head, remotes).value)
  {
    hide Names, Candidates;
    OneMoreCandidate(s, refs, init, w, head, remotes);
    var before, after := Candidates(s, refs, init, head, remotes).value, Candidates(s, refs, init + [w], head, remotes).value;
    assert forall x <- init + [w] :: x in init || x == w;
    assert w in init + [w] && forall x <- init :: x in init + [w];
    if t: Tracked :| Names(s, refs, w, head, remotes, t) {
      if known: Tracked :| known in before && known.ref == t.ref {
        var x :| x in init && Names(s, refs, x, head, remotes, known);
        SameRefSameTracked(s, refs, x, w, head, remotes, known, t);
      }
      forall u | Names(s, refs, w, head, remotes, u) ensures u == t { OneVote(s, refs, w, head, remotes, t, u); }
    }
  }

  lemma OneVote(s: Setup, refs: Refs, w: WorktreeRecord, head: Ref, remotes: seq<string>, t: Tracked, u: Tracked)
    requires Names(s, refs, w, head, remotes, t) && Names(s, refs, w, head, remotes, u)
    ensures t == u
  {
  }

  lemma ElectedIsTracked(s: Setup, refs: Refs, head: Ref, remotes: seq<string>)
    ensures var e := Elected(s, refs, head, remotes);
      e.Ok? && e.value.Some? ==>
        && e.value.value.remote in remotes && e.value.value.branch != "" && e.value.value.ref == Prefix(e.value.value.remote) + e.value.value.branch
        && Exists(refs, e.value.value.ref) && s.works(Verify(e.value.value.ref))
  {
    hide Candidates, TrackedUpstream, Leads, Prefix, Votes;
    var voters := if s.snapshot.worktrees == [] then [] else s.snapshot.worktrees[1..];
    CandidatesTally(s, refs, voters, head, remotes);
    var c := Candidates(s, refs, voters, head, remotes);
    if c.Ok? && |c.value| == 1 { assert c.value[0] in c.value; }
  }

  /** When the main branch tracks nothing, the linked worktrees decide: a ref is
      adopted exactly when some voter tracks it and no voter tracks another, and
      the election is ambiguous exactly when two of them disagree. */
  lemma ElectionIsUnanimous(s: Setup, refs: Refs, head: Ref, remotes: seq<string>, t: Tracked)
    requires s.snapshot.worktrees != [] && TrackedUpstream(s, refs, head, remotes) == Ok(None)
    requires Candidates(s, refs, s.snapshot.worktrees[1..], head, remotes).Ok?
    ensures var voters, e := s.snapshot.worktrees[1..], Elected(s, refs, head, remotes);
      && (e == Ok(Some(t)) <==>
          (TrackedBy(s, refs, voters, head, remotes, t) && forall u :: TrackedBy(s, refs, voters, head, remotes, u) ==> u == t))
      && (e.Err? <==> exists a: Tracked, b: Tracked :: a.ref != b.ref && TrackedBy(s, refs, voters, head, remotes, a) && TrackedBy(s, refs, voters, head, remotes, b))
  {
    hide Candidates, TrackedUpstream, TrackedBy;
    var voters := s.snapshot.worktrees[1..];
    CandidatesTally(s, refs, voters, head, remotes);
    var c := Candidates(s, refs, voters, head, remotes).value;
    if |c| > 1 {
      assert c[0] in c && c[1] in c && c[0].ref != c[1].ref;
    }
  }

  /** What a branch tracks is the ref configured for it, if that is a branch of
      an admissible remote and a commit stands behind it. */
  lemma TrackedIsConfigured(s: Setup, refs: Refs, branch: Ref, remotes: seq<string>, t: Tracked)
    ensures TrackedUpstream(s, refs, branch, remotes) == Ok(Some(t)) <==>
      && s.works(ReadUpstream(branch)) && branch in s.upstreams && s.upstreams[branch].ref == t.ref
      && RemoteOf(t.ref, remotes) == Some(t) && s.works(Verify(t.ref)) && Exists(refs, t.ref)
  {
    hide Leads, RemoteOf;
    NoRemoteHasNothing(remotes);
  }

  lemma NoRemoteHasNothing(remotes: seq<string>)
    ensures RemoteOf("", remotes).None?
  {
  }

  /** The remotes asked: the main branch's, unless it is the repository itself, then `origin`, each once. */
  lemma RemotesAre(s: Setup, head: Ref)
    ensures Remotes(s, head) ==
      if head in s.upstreams && s.upstreams[head].remote !in {"", ".", "origin"} then [s.upstreams[head].remote, "origin"] else ["origin"]
  {
    assert "origin"[0] != "."[0];
  }

  // ----- Answers and refusals -----

  /** A recorded HEAD answers only when no earlier remote has one that leads to a commit. */
  lemma {:induction false} EarlierRemotesHaveNone(s: Setup, refs: Refs, remotes: seq<string>, dangling: Option<(string, Ref)>) returns (i: nat)
    requires ScanRemotes(s, refs, remotes, dangling).Found?
    ensures var d := ScanRemotes(s, refs, remotes, dangling).default_;
      && i < |remotes| && remotes[i] == d.remote && ReadChain(refs, RemoteHead(d.remote)) == PointsAt(d.remoteRef)
      && forall j | 0 <= j < i ::
        var reading := ReadChain(refs, RemoteHead(remotes[j]));
        reading.NotSymbolic? || (reading.PointsAt? && !Exists(refs, reading.ref))
    decreases remotes
  {
    hide Leads, End, Prefix, RemoteHead, Exists, ReadChain;
    var reading := ReadChain(refs, RemoteHead(remotes[0]));
    if reading.PointsAt? && Exists(refs, reading.ref) {
      i := 0;
    } else {
      i := EarlierRemotesHaveNone(s, refs, remotes[1..], if reading.PointsAt? then Some((remotes[0], reading.ref)) else dangling);
      i := i + 1;
    }
  }

  /** What each refusal of a scan says is so. */
  predicate ScanTells(s: Setup, refs: Refs, remotes: seq<string>, why: Unavailable) {
    match why
    case MalformedTarget(remote, target) =>
      remote in remotes && ReadChain(refs, RemoteHead(remote)) == PointsAt(target) && Stripped(target, Prefix(remote)).None?
    case UnsupportedCommand(ReadSymbolic(ref)) => !s.works(ReadSymbolic(ref)) || ReadChain(refs, ref).TooDeep?
    case UnsupportedCommand(Verify(ref)) => !s.works(Verify(ref))
    case _ => false
  }

  lemma {:induction false} ScanRefusalsAreTrue(s: Setup, refs: Refs, remotes: seq<string>, dangling: Option<(string, Ref)>)
    ensures match ScanRemotes(s, refs, remotes, dangling)
      case Refused(why) => ScanTells(s, refs, remotes, why)
      case Nothing(Some(d)) => dangling == Some(d) ||
        (d.0 in remotes && ReadChain(refs, RemoteHead(d.0)) == PointsAt(d.1) && !Exists(refs, d.1))
      case _ => true
    decreases remotes
  {
    hide Leads, End, Prefix, RemoteHead, Exists, ReadChain;
    if remotes != [] {
      ScanRefusalsAreTrue(s, refs, remotes[1..], dangling);
      var reading := ReadChain(refs, RemoteHead(remotes[0]));
      if reading.PointsAt? { ScanRefusalsAreTrue(s, refs, remotes[1..], Some((remotes[0], reading.ref))); }
    }
  }

  /** A refusal for want of a default is true of the refs: a detached or unborn
      main branch, a remote's HEAD that leads out of its branches or nowhere,
      voters that disagree, or nobody who tracks anything. */
  ghost predicate RefusalTrue(s: Setup, refs: Refs, why: Unavailable) {
    match why
    case DetachedMainHead => s.snapshot.worktrees != [] && (s.snapshot.worktrees[0].detached || ReadChain(refs, HEAD).NotSymbolic?)
    case UnbornMainHead(head) => ReadChain(refs, HEAD) == PointsAt(head) && !Exists(refs, head)
    case MalformedTarget(_, _) => MainBranch(s, refs).Ok? && ScanTells(s, refs, Remotes(s, MainBranch(s, refs).value), why)
    case DanglingTarget(remote, target) =>
      MainBranch(s, refs).Ok? && remote in Remotes(s, MainBranch(s, refs).value)
      && ReadChain(refs, RemoteHead(remote)) == PointsAt(target) && !Exists(refs, target)
    case AmbiguousTrackedDefault(remote, targets) =>
      MainBranch(s, refs).Ok? && VotersDisagree(s, refs, MainBranch(s, refs).value, Remotes(s, MainBranch(s, refs).value), remote, targets)
    case NoCandidate(remotes) =>
      MainBranch(s, refs).Ok? && remotes == Remotes(s, MainBranch(s, refs).value) && Headless(s, refs, remotes)
    case MalformedMainHead =>
      || s.snapshot.worktrees == [] || s.snapshot.worktrees[0].path != s.snapshot.mainWorktree
      || (ReadChain(refs, HEAD).PointsAt?
          && (!(HEADS < ReadChain(refs, HEAD).ref) || s.snapshot.worktrees[0].branch != Some(ReadChain(refs, HEAD).ref)))
    case UnsupportedCommand(probe) => !s.works(probe) || (probe.ReadSymbolic? && ReadChain(refs, probe.ref).TooDeep?)
  }

  /** Each of these several refs is tracked by some voter, the first through `remote`. */
  ghost predicate VotersDisagree(s: Setup, refs: Refs, head: Ref, remotes: seq<string>, remote: string, targets: seq<Ref>) {
    && |targets| > 1 && s.snapshot.worktrees != []
    && (forall i, j | 0 <= i < j < |targets| :: targets[i] != targets[j])
    && forall i | 0 <= i < |targets| :: exists t: Tracked ::
      t.ref == targets[i] && (i == 0 ==> t.remote == remote) && TrackedBy(s, refs, s.snapshot.worktrees[1..], head, remotes, t)
  }

  lemma RefusalsAreTrue(s: Setup, refs: Refs)
    requires Resolve(s, refs).1.Err?
    ensures RefusalTrue(s, refs, Resolve(s, refs).1.error)
  {
    hide ScanRemotes, Candidates, Headless, Leads, RemoteHead, Prefix, TrackedUpstream, Stripped, TrackedBy, ReadChain, Exists, MainBranch, Elected, Remotes, VotersDisagree;
    MainRefusalsAreTrue(s, refs);
    var main := MainBranch(s, refs);
    if main.Ok? {
      var remotes := Remotes(s, main.value);
      ScanFinds(s, refs, remotes, None);
      ScanRefusalsAreTrue(s, refs, remotes, None);
      ElectionRefusalsAreTrue(s, refs, main.value, remotes);
    }
  }

  lemma MainRefusalsAreTrue(s: Setup, refs: Refs)
    ensures match MainBranch(s, refs)
      case Err(why) => RefusalTrue(s, refs, why)
      case Ok(head) => s.snapshot.worktrees != []
  {
    hide Leads, End;
  }

  lemma ElectionRefusalsAreTrue(s: Setup, refs: Refs, head: Ref, remotes: seq<string>)
    requires s.snapshot.worktrees != []
    ensures match Elected(s, refs, head, remotes)
      case Err(AmbiguousTrackedDefault(remote, targets)) => VotersDisagree(s, refs, head, remotes, remote, targets)
      case Err(why) => Unanswered(s, why)
      case Ok(_) => true
  {
    hide Candidates, TrackedUpstream, TrackedBy;
    var voters := s.snapshot.worktrees[1..];
    CandidatesTally(s, refs, voters, head, remotes);
    CandidatesOnlyFailByProbe(s, refs, voters, head, remotes);
    TrackingOnlyFailsByProbe(s, refs, head, remotes);
    var c := Candidates(s, refs, voters, head, remotes);
    if c.Ok? {
      forall i | 0 <= i < |c.value| ensures exists t: Tracked ::
          t == c.value[i] && TrackedBy(s, refs, voters, head, remotes, t) {
        assert c.value[i] in c.value;
      }
    }
  }

  predicate Unanswered(s: Setup, why: Unavailable) {
    why.UnsupportedCommand? && !s.works(why.probe)
  }

  lemma TrackingOnlyFailsByProbe(s: Setup, refs: Refs, branch: Ref, remotes: seq<string>)
    ensures TrackedUpstream(s, refs, branch, remotes).Err? ==> Unanswered(s, TrackedUpstream(s, refs, branch, remotes).error)
  {
  }

  lemma {:induction false} CandidatesOnlyFailByProbe(s: Setup, refs: Refs, voters: seq<WorktreeRecord>, head: Ref, remotes: seq<string>)
    ensures Candidates(s, refs, voters, head, remotes).Err? ==> Unanswered(s, Candidates(s, refs, voters, head, remotes).error)
  {
    hide TrackedUpstream, Votes;
    if voters != [] {
      CandidatesOnlyFailByProbe(s, refs, voters[..|voters| - 1], head, remotes);
      var w := voters[|voters| - 1];
      if w.branch.Some? { TrackingOnlyFailsByProbe(s, refs, w.branch.value, remotes); }
    }
  }

  // ----- Resolving again -----

  /** Giving a ref that pointed nowhere something to point at does not move the end of another chain. */
  lemma {:induction false} EndSurvivesWrite(refs: Refs, ref: Ref, name: Ref, to: Ref, depth: nat)
    requires name in refs ==> refs[name].Commit?
    requires End(refs, ref, depth).Some? && End(refs, ref, depth).value != name
    ensures End(refs[name := Symbolic(to)], ref, depth) == End(refs, ref, depth)
    decreases depth
  {
    if ref in refs && refs[ref].Symbolic? { EndSurvivesWrite(refs, refs[ref].to, name, to, depth - 1); }
  }

  lemma BranchesAreNoHeads(branch: Ref, remote: string)
    requires HEADS <= branch
    ensures branch != RemoteHead(remote) && HEAD != RemoteHead(remote)
  {
    assert HEADS[5] == 'h' && RemoteHead(remote)[5] == 'r' && |RemoteHead(remote)| > 4;
    assert branch[5] == HEADS[5];
  }

  /** Recording a remote's HEAD leaves the main branch what it was. */
  lemma MainBranchSurvives(s: Setup, refs: Refs, remote: string, to: Ref)
    requires MainBranch(s, refs).Ok?
    requires RemoteHead(remote) in refs ==> refs[RemoteHead(remote)].Commit?
    ensures MainBranch(s, refs[RemoteHead(remote) := Symbolic(to)]) == MainBranch(s, refs)
  {
    hide RemoteHead;
    var head, name := MainBranch(s, refs).value, RemoteHead(remote);
    BranchesAreNoHeads(head, remote);
    EndSurvivesWrite(refs, HEAD, name, to, MAX_DEPTH);
  }

  lemma HeadsDiffer(a: string, b: string)
    ensures RemoteHead(a) == RemoteHead(b) <==> a == b
  {
    var x, y := RemoteHead(a), RemoteHead(b);
    assert x[|REMOTES|..|x| - 5] == a && y[|REMOTES|..|y| - 5] == b;
  }

  lemma {:induction false} ScanAfterWrite(s: Setup, refs: Refs, remotes: seq<string>, t: Tracked, dangling: Option<(string, Ref)>)
    requires Headless(s, refs, remotes) && s.works(Verify(t.ref)) && t.branch != "" && t.ref == Prefix(t.remote) + t.branch
    requires Ordinary(refs, t.ref) && t.ref != RemoteHead(t.remote) && t.remote in remotes
    ensures ScanRemotes(s, refs[RemoteHead(t.remote) := Symbolic(t.ref)], remotes, dangling) == Found(DefaultOf(t.remote, t.ref, t.branch))
    decreases remotes
  {
    hide Prefix, RemoteHead;
    assert NoHead(s, refs, remotes[0]);
    HeadsDiffer(remotes[0], t.remote);
    if remotes[0] == t.remote {
      OneHop(refs, RemoteHead(t.remote), t.ref);
    } else {
      assert forall r <- remotes[1..] :: r in remotes;
      ScanAfterWrite(s, refs, remotes[1..], t, dangling);
    }
  }

  lemma OneHop(refs: Refs, name: Ref, to: Ref)
    requires Ordinary(refs, to) && to != name
    ensures ReadChain(refs[name := Symbolic(to)], name) == PointsAt(to) && Exists(refs[name := Symbolic(to)], to)
  {
    assert End(refs[name := Symbolic(to)], to, MAX_DEPTH - 1) == Some(to);
  }

  /** A remote's HEAD answers already, or the upstream elected is an ordinary
      ref, other than the HEAD that will record it. */
  predicate Settles(s: Setup, refs: Refs)
    requires MainBranch(s, refs).Ok?
  {
    var head := MainBranch(s, refs).value;
    var remotes := Remotes(s, head);
    ScanRemotes(s, refs, remotes, None).Found? ||
      var elected := Elected(s, refs, head, remotes);
      elected.Ok? && elected.value.Some? ==>
        Ordinary(refs, elected.value.value.ref) && elected.value.value.ref != RemoteHead(elected.value.value.remote)
  }

  /** Resolving again finds the same default by the ordinary path and writes
      nothing more, exactly when the refs settle. */
  lemma ResolvingAgainAgrees(s: Setup, refs: Refs)
    requires Resolve(s, refs).1.Ok?
    ensures MainBranch(s, refs).Ok?
    ensures Resolve(s, Resolve(s, refs).0) == Resolve(s, refs) <==> Settles(s, refs)
  {
    hide MainBranch, ScanRemotes, Candidates, Leads, RemoteHead, Prefix, TrackedUpstream, Stripped, Elected;
    ResolutionIsConservative(s, refs);
    var (refs', r) := Resolve(s, refs);
    var head := MainBranch(s, refs).value;
    var remotes := Remotes(s, head);
    if !ScanRemotes(s, refs, remotes, None).Found? {
      ScanFinds(s, refs, remotes, None);
      ElectedIsTracked(s, refs, head, remotes);
      var t := Elected(s, refs, head, remotes).value.value;
      assert NoHead(s, refs, t.remote);
      MainBranchSurvives(s, refs, t.remote, t.ref);
      if Settles(s, refs) {
        ScanAfterWrite(s, refs, remotes, t, None);
      } else {
        SymbolicIsNoAnswer(s, refs', remotes, t);
      }
    }
  }

  /** A recorded branch that is itself symbolic is never the answer of a scan, and its HEAD is not overlooked. */
  lemma SymbolicIsNoAnswer(s: Setup, refs: Refs, remotes: seq<string>, t: Tracked)
    requires t.remote in remotes && RemoteHead(t.remote) in refs && refs[RemoteHead(t.remote)].Symbolic? && !Ordinary(refs, t.ref)
    ensures var scan := ScanRemotes(s, refs, remotes, None);
      scan != Nothing(None) && (scan.Found? ==> scan.default_.remoteRef != t.ref)
  {
    hide RemoteHead, Prefix, ScanRemotes;
    ScanFinds(s, refs, remotes, None);
    assert !NoHead(s, refs, t.remote);
  }
}
