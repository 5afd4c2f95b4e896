/** The per-child alignment rule of `check_for_state_match`
    (gitparent/gitp.py): how a manifest entry is compared with what is on
    disk at the child's path. The filesystem and git facts the rule
    consults are inputs. */
module Alignment {
  import opened Wrappers
  import opened Text
  import opened PyValue
  import opened ManifestModel

  /** `RepoState` */
  datatype RepoState = Clean | Modified | Unaligned | Nonexistent | Unlinked | Overlayed

  /** What a symbolic link at the child's path resolves to. */
  datatype LinkTarget = Dangling | ToFile | ToDir(entries: nat)

  /** What is at the child's path (`entries` is `len(os.listdir(path))`). */
  datatype PathEntry =
    | Absent
    | RegularFile
    | Directory(entries: nat)
    | Symlink(target: string, resolves: LinkTarget)

  /** `os.path.exists` (follows links). */
  predicate Exists(e: PathEntry) {
    !e.Absent? && !(e.Symlink? && e.resolves.Dangling?)
  }

  /** `is_real_dir`: a directory that is not a link. */
  predicate IsRealDir(e: PathEntry) { e.Directory? }

  /** `len(os.listdir(path))` when the path lists as a directory. */
  function ListCount(e: PathEntry): Option<nat> {
    match e
    case Directory(n) => Some(n)
    case Symlink(_, ToDir(n)) => Some(n)
    case _ => None
  }

  /** Exceptions the rule can raise from the standard library. */
  datatype Fault =
    | NotADirectory    // `os.listdir` on something that exists but is not a directory
    | CommitNotString  // `str.startswith` given a recorded commit that is not a string

  /** The state recorded for one child, `None` when it is aligned, given
      what is at its path and, for a cloned repository, its current branch
      (`""` when detached) and current commit. */
  function ChildState(entry: Repo, at: PathEntry, currBranch: string, currCommit: string)
    : (r: Result<Option<RepoState>, Fault>)
    // A link entry: nothing there (and no link) is NONEXISTENT, a real
    // directory is UNLINKED, a link elsewhere is UNALIGNED.
    ensures Truthy(entry.link) && !Exists(at) && !at.Symlink? ==> r == Ok(Some(Nonexistent))
    ensures Truthy(entry.link) && at.Directory? ==> r == Ok(Some(if at.entries == 0 then Nonexistent else Unlinked))
    ensures Truthy(entry.link) && at.Symlink? ==>
      (r == Ok(Some(Unaligned)) <==> VStr(at.target) != entry.link && !at.resolves.ToFile?)
    // A repository entry: anything but a non-empty real directory is NONEXISTENT.
    ensures !Truthy(entry.link) && !(at.Directory? && at.entries > 0) ==> r == Ok(Some(Nonexistent))
    // A pinned commit is compared by prefix and the branch is ignored.
    ensures !Truthy(entry.link) && at.Directory? && at.entries > 0 && entry.commit.VStr? && entry.commit.s != [] ==>
      r == Ok(if StartsWith(currCommit, entry.commit.s) then None else Some(Unaligned))
    // Without a commit, the branch must match (a `None` branch matches anything).
    ensures !Truthy(entry.link) && at.Directory? && at.entries > 0 && entry.commit == VNone ==>
      r == Ok(if entry.branch != VNone && VStr(currBranch) != entry.branch then Some(Unaligned) else None)
    // Only these states are ever recorded.
    ensures r.Ok? && r.value.Some? ==> r.value.value in {Nonexistent, Unlinked, Unaligned}
  {
    if Truthy(entry.link) then
      if !Exists(at) && !at.Symlink? then Ok(Some(Nonexistent))
      else if Exists(at) && ListCount(at).None? then Err(NotADirectory)
      else if Exists(at) && ListCount(at) == Some(0) && !at.Symlink? then Ok(Some(Nonexistent))
      else if IsRealDir(at) then Ok(Some(Unlinked))
      else if at.Symlink? && VStr(at.target) != entry.link then Ok(Some(Unaligned))
      else Ok(None)
    else if !IsRealDir(at) then Ok(Some(Nonexistent))
    else if at.entries == 0 then Ok(Some(Nonexistent))
    else
      var expBranch := if Truthy(entry.commit) then VNone else entry.branch;
      if expBranch != VNone && VStr(currBranch) != expBranch then Ok(Some(Unaligned))
      else if entry.commit == VNone then Ok(None)
      else if !entry.commit.VStr? then Err(CommitNotString)
      else if !StartsWith(currCommit, entry.commit.s) then Ok(Some(Unaligned))
      else Ok(None)
  }

  /** An empty recorded commit is not a pin: the branch decides, and the
      empty prefix always matches. */
  lemma EmptyCommitFallsBackToBranch(entry: Repo, n: nat, currBranch: string, currCommit: string)
    requires !Truthy(entry.link) && n > 0 && entry.commit == VStr([])
    ensures ChildState(entry, Directory(n), currBranch, currCommit)
      == Ok(if entry.branch != VNone && VStr(currBranch) != entry.branch then Some(Unaligned) else None)
  {
  }

  /** A pinned commit makes the entry's branch irrelevant: two entries
      that differ only in their branch get the same state. */
  lemma PinnedCommitIgnoresBranch(entry: Repo, branch: Value, at: PathEntry, currBranch: string, currCommit: string)
    requires Truthy(entry.commit)
    ensures ChildState(entry.(branch := branch), at, currBranch, currCommit) == ChildState(entry, at, currBranch, currCommit)
  {
  }
}
