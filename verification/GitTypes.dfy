/** The facts Git reports about a repository and its worktrees (baude-core/src/git.rs). */
module GitTypes {
  import opened Prelude
  import opened Repository

  datatype WorktreeRecord = WorktreeRecord(
    path: Path, branch: Option<string>, bare: bool, detached: bool, locked: bool, prunable: bool)

  datatype RepositorySnapshot = RepositorySnapshot(
    commonDir: Path, mainWorktree: Path, selected: WorktreeRecord, worktrees: seq<WorktreeRecord>)

  /** Everything one reconcile asks of the file system and of Git. */
  datatype GitFacts = GitFacts(present: bool, discovery: Result<RepositorySnapshot, string>)
}
