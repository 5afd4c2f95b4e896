/** The recursive walk of `pull` (gitparent/gitp.py, the nested `work` and
    the code of `pull` around it): which repositories it touches, what it
    does to each, in which order, and where it stops. What is on disk and
    what git answers are inputs carried by the tree; every effect on the
    disk, on git and on the environment is an event appended to a trace. */
module PullSync {
  import opened Wrappers
  import opened Text
  import opened PyValue
  import opened ManifestModel
  import opened Alignment

  /** The `operation` chosen for a node that is not skipped. */
  datatype Operation = Pulling | Cloning | Linking | Copying

  /** An effect of the walk. Every effect on a repository path names that
      path as `at`. */
  datatype Event =
    | SetParentEnv(value: string)                    // `GITP_PARENT_REPO` is assigned
    | Operate(at: string, op: Operation)             // the node's own work begins (its header line)
    | RemoveTree(at: string)                         // `shutil.rmtree`
    | Unlink(at: string)                             // `os.unlink` of a link
    | CopyTree(from: string, at: string)             // `shutil.copytree`
    | MakeLink(to: string, at: string)               // `os.symlink`
    | MakeDirs(at: string)                           // `os.makedirs(..., exist_ok=True)`
    | GitPull(at: string, extra: seq<string>, source: Option<(string, Value)>)  // `git pull [src branch]`
    | ReportError(at: string)                        // a failed `git pull` is reported and the walk goes on
    | GitClone(at: string, origin: Value)            // `git clone <src> .`
    | SetRemoteUrls(at: string, remotesOf: string)   // remotes copied from the pull source
    | GitFetch(at: string)                           // `git fetch`
    | GitReset(at: string, rev: Value)               // `git reset --hard <branch>`
    | GitCheckout(at: string, rev: Value)            // `git checkout <branch>`
    | RunHook(cmd: Value, at: string)                // a manifest hook run with `cwd` at the path
    | ApplyOverlays(entries: seq<(string, Repo)>, targets: seq<string>)

  /** The repository path an event acts on, if any. */
  function Place(e: Event): Option<string> {
    if e.SetParentEnv? || e.ApplyOverlays? then None else Some(e.at)
  }

  /** No event of `t` acts on `p`. */
  predicate NotAt(t: seq<Event>, p: string) {
    forall k :: 0 <= k < |t| ==> Place(t[k]) != Some(p)
  }

  predicate NoApply(t: seq<Event>) {
    forall k :: 0 <= k < |t| ==> !t[k].ApplyOverlays?
  }

  /** The exceptions that end a pull. */
  datatype PullError =
    | EmptyLocalValue               // `args.local[0]` on an empty `--local` value raises `IndexError`
    | RootIsSymlink                 // the root given is a symbolic link
    | UnalignedRepos                // `check_for_state_match` found UNALIGNED repositories
    | LocalChanges(at: string)      // changes that a commit or link update would clobber
    | StashedChanges(at: string)    // stashed changes under a link that would be replaced
    | NoLinkCandidate(at: string)   // `resolve_repo_link` found nothing to link to
    | LinkUnresolved(at: string)    // `--force` made it return `None`, which `os.path.isdir` rejects
    | MissingLinkTarget(at: string) // the link target is not a directory
    | UpdateFailed(at: string)      // `git clone`, `reset` or `checkout` failed
    | RemoteUrlFailed(at: string)   // copying a remote URL failed
    | FetchFailed(at: string)       // the fetch after a clone from a source failed
    | PathBlocked(at: string)       // `FileExistsError`: a file or a dangling link is in the way

  /** What `resolve_repo_link` finds for a link entry. */
  datatype LinkSearch = NoCandidate | Candidate(path: string, isDir: bool)

  /** The git command that raises at a node, if any. A failed `git pull`
      does not raise, so it is the separate `pullFails` of a node. */
  datatype GitOutcome = GitSucceeds | CloneFails | RemoteUrlFails | FetchFails | UpdateFails

  /** A repository of the tree as the walk finds it: what is at its path,
      whether `check_for_changes` and `git stash list` report anything,
      what its link resolves to, whether `git pull` fails there, which
      later git command raises, the manifest found there once its own work
      is done, and one node per child of that manifest, in manifest order. */
  datatype Node = Node(at: PathEntry, changes: bool, stashed: bool, linkSearch: LinkSearch,
                       pullFails: bool, git: GitOutcome, manifest: Option<ManifestData>, children: seq<Node>)

  /** Children match the manifest's keys one to one. */
  ghost predicate WellFormed(n: Node)
    decreases n
  {
    (match n.manifest
     case None => n.children == []
     case Some(m) => m.Valid() && |n.children| == |m.order|)
    && forall i :: 0 <= i < |n.children| ==> WellFormed(n.children[i])
  }

  /** No node below `n` sits at `p`. */
  ghost predicate ChildrenAvoid(n: Node, dst: string, p: string)
    requires WellFormed(n)
    decreases n, 0
  {
    n.manifest.Some? ==>
      forall i :: 0 <= i < |n.children| ==> Avoids(n.children[i], PathJoin(dst, n.manifest.value.order[i]), p)
  }

  /** No node of the subtree of `n`, itself included, sits at `p`. */
  ghost predicate Avoids(n: Node, dst: string, p: string)
    requires WellFormed(n)
    decreases n, 1
  {
    dst != p && ChildrenAvoid(n, dst, p)
  }

  /** The options of one pull: the top repository, `--target`, `--local`,
      `--force` and the arguments passed through to `git pull`. */
  datatype Options = Options(topRoot: string, target: Option<string>, local: bool, force: bool, extra: seq<string>)

  /** The target filter: with a target that does not end in a separator
      only the repository at that path is processed (any link under
      `--local` falls to the second rule); with one that does, that
      directory and every path beneath it are. */
  predicate Skip(o: Options, link: Value, dst: string) {
    o.target.Some? && o.target.value != [] &&
    var tgt := o.target.value;
    if !EndsWith(tgt, "/") && !(Truthy(link) && o.local) then PathJoin(o.topRoot, tgt) != dst
    else dst != StripTrailingSeps(PathJoin(o.topRoot, tgt)) && !StartsWith(dst, PathJoin(o.topRoot, tgt))
  }

  /** A target without a trailing separator, outside `--local`, lets at
      most one path through: the target's own. */
  lemma SoleTargetProcessesOne(o: Options, link1: Value, link2: Value, d1: string, d2: string)
    requires o.target.Some? && o.target.value != [] && !EndsWith(o.target.value, "/") && !o.local
    requires !Skip(o, link1, d1) && !Skip(o, link2, d2)
    ensures d1 == d2 == PathJoin(o.topRoot, o.target.value)
  {
  }

  /** Without a target every node is processed. */
  lemma NoTargetProcessesAll(o: Options, link: Value, dst: string)
    requires o.target.None? || o.target == Some([])
    ensures !Skip(o, link, dst)
  {
  }

  /** A target ending in a separator takes in whole subtrees: every child
      of a processed node is processed too, whether or not either is a
      link. */
  lemma {:induction false} RecursiveTargetCoversChildren(o: Options, link: Value, childLink: Value, dst: string, key: string)
    requires o.target.Some? && EndsWith(o.target.value, "/")
    requires var j := PathJoin(o.topRoot, o.target.value); |j| >= 2 && j[|j| - 2] != '/'
    requires !Skip(o, link, dst) && key != [] && !StartsWith(key, "/")
    ensures !Skip(o, childLink, PathJoin(dst, key))
  {
    var j := PathJoin(o.topRoot, o.target.value);
    assert EndsWith(j, "/");
    if StartsWith(dst, j) {
      JoinKeepsPrefix(dst, key, j);
    } else {
      var p := j[..|j| - 1];
      assert j == p + "/";
      assert StripTrailingSeps(j) == StripTrailingSeps(p) == p;
      JoinBelowDir(p, key);
    }
  }

  lemma JoinKeepsPrefix(dst: string, key: string, j: string)
    requires StartsWith(dst, j) && !StartsWith(key, "/")
    ensures StartsWith(PathJoin(dst, key), j)
  {
    var child := PathJoin(dst, key);
    assert child == dst + key || child == dst + "/" + key;
    assert child[..|j|] == dst[..|j|];
  }

  lemma JoinBelowDir(p: string, key: string)
    requires p != [] && !EndsWith(p, "/") && !StartsWith(key, "/")
    ensures StartsWith(PathJoin(p, key), p + "/")
  {
    assert PathJoin(p, key) == (p + "/") + key;
  }

  /** A populated real directory or a link is updated; anything else is cloned. */
  predicate Occupied(at: PathEntry) {
    (at.Directory? && at.entries > 0) || at.Symlink?
  }

  /** `os.path.isdir` */
  predicate IsDir(at: PathEntry) {
    at.Directory? || (at.Symlink? && at.resolves.ToDir?)
  }

  /** The operation of a processed node. */
  function Chosen(o: Options, entry: Repo, at: PathEntry): (op: Operation)
    ensures Truthy(entry.link) <==> op in {Linking, Copying}
    ensures op == Copying <==> Truthy(entry.link) && o.local
    ensures op == Cloning <==> !Truthy(entry.link) && !Occupied(at)
  {
    if Truthy(entry.link) then (if o.local then Copying else Linking)
    else if Occupied(at) then Pulling
    else Cloning
  }

  /** Whether local changes are checked before the node's own work: an
      existing checkout that is pinned to a commit, or a real directory
      that a link is about to replace. */
  predicate Guarded(entry: Repo, at: PathEntry) {
    Occupied(at) && (Truthy(entry.commit) || (Truthy(entry.link) && at.Directory?))
  }

  /** The refusal, if any, of the local-changes check without `--force`. */
  function Refusal(o: Options, n: Node, dst: string, entry: Repo): (r: Option<PullError>)
    ensures r.Some? <==> Guarded(entry, n.at) && !o.force && (n.changes || (Truthy(entry.link) && n.stashed))
    ensures r.Some? ==> r.value == (if n.changes then LocalChanges(dst) else StashedChanges(dst))
  {
    var stashed := Truthy(entry.link) && n.stashed;
    if Guarded(entry, n.at) && (n.changes || stashed) && !o.force then
      Some(if n.changes then LocalChanges(dst) else StashedChanges(dst))
    else None
  }

  /** The own work of a link entry. */
  function LinkWork(o: Options, n: Node, dst: string, op: Operation): (r: (seq<Event>, Option<PullError>))
    ensures r.0 != [] && r.0[0] == Operate(dst, op)
    ensures r.1.None? && n.linkSearch.Candidate? && n.linkSearch.path != [] ==>
      r.0[|r.0| - 1] == (if o.local then CopyTree(n.linkSearch.path, dst) else MakeLink(n.linkSearch.path, dst))
    ensures r.1.None? <==> n.linkSearch.Candidate? && (n.linkSearch.isDir || o.force)
                           && !(n.linkSearch.path != [] && n.at.RegularFile?)
    ensures r.1 == Some(PathBlocked(dst)) <==> n.linkSearch.Candidate? && (n.linkSearch.isDir || o.force)
                                               && n.linkSearch.path != [] && n.at.RegularFile?
  {
    var head := [Operate(dst, op)];
    match n.linkSearch
    case NoCandidate => (head, Some(if o.force then LinkUnresolved(dst) else NoLinkCandidate(dst)))
    case Candidate(q, isDir) =>
      if !isDir && !o.force then (head, Some(MissingLinkTarget(dst)))
      else if q == [] then (head, None)
      else if n.at.RegularFile? then (head, Some(PathBlocked(dst)))
      else
        var clear := if n.at.Directory? then [RemoveTree(dst)] else if n.at.Symlink? then [Unlink(dst)] else [];
        (head + clear + [if o.local then CopyTree(q, dst) else MakeLink(q, dst)], None)
  }

  /** `os.path.join(src, child)` when a source was given. */
  function ChildSrc(src: Option<string>, key: string): Option<string> {
    if src.Some? then Some(PathJoin(src.value, key)) else None
  }

  /** The last git command of a repository entry: a pinned commit resets
      hard to the entry's branch, otherwise the branch is checked out. */
  function Settle(dst: string, entry: Repo): Event {
    if Truthy(entry.commit) then GitReset(dst, entry.branch) else GitCheckout(dst, entry.branch)
  }

  /** A clone from a given source whose path is not the entry's URL gets
      its remote URLs copied from that source and is fetched again. */
  predicate FromOtherSource(src: Option<string>, entry: Repo) {
    src.Some? && VStr(src.value) != entry.url
  }

  /** Events a node performs on itself: all at its path, none a hook. */
  predicate OwnEvents(t: seq<Event>, dst: string) {
    forall k :: 0 <= k < |t| ==> Place(t[k]) == Some(dst) && !t[k].RunHook?
  }

  lemma OwnEventsConcat(a: seq<Event>, b: seq<Event>, dst: string)
    requires OwnEvents(a, dst) && OwnEvents(b, dst)
    ensures OwnEvents(a + b, dst)
  {
    forall k | 0 <= k < |a + b| ensures Place((a + b)[k]) == Some(dst) && !(a + b)[k].RunHook? {
      if k >= |a| { assert (a + b)[k] == b[k - |a|]; }
    }
  }

  /** `os.makedirs(path, exist_ok=True)` raises `FileExistsError` over a
      regular file, and over a dangling link, which `os.path.exists` does
      not see and so does not unlink first. */
  predicate Blocked(at: PathEntry) {
    at.RegularFile? || (at.Symlink? && at.resolves.Dangling?)
  }

  /** What a repository entry does before git runs: announce the
      operation, remove a link in the way, create the directory. */
  function Prepare(n: Node, dst: string, op: Operation): (r: seq<Event>)
    ensures r != [] && r[0] == Operate(dst, op)
  {
    [Operate(dst, op)] + (if Exists(n.at) && n.at.Symlink? then [Unlink(dst)] else []) + [MakeDirs(dst)]
  }

  /** A directory that was not there before the node's work is removed
      when git fails. */
  function Cleanup(n: Node, dst: string): (r: seq<Event>)
    ensures r == [] <==> IsDir(n.at)
  {
    if IsDir(n.at) then [] else [RemoveTree(dst)]
  }

  /** The own work of an existing checkout: `git pull` (from the source
      and the entry's branch when a source is given), then settle. A failed
      pull is only reported, and the settling command may still raise. */
  function PullRepo(o: Options, n: Node, dst: string, entry: Repo, src: Option<string>): (r: (seq<Event>, Option<PullError>))
    ensures r.0 != [] && r.0[0] == Operate(dst, Pulling)
    ensures r.1.None? <==> n.git != UpdateFails
    ensures r.1.Some? ==> r.1.value == UpdateFailed(dst)
    ensures r.1.None? ==> r.0[|r.0| - 1] == Settle(dst, entry)
    ensures ReportError(dst) in r.0 <==> n.pullFails
  {
    var from := if src.Some? then Some((src.value, entry.branch)) else None;
    var pulled := Prepare(n, dst, Pulling) + [GitPull(dst, o.extra, from)] + (if n.pullFails then [ReportError(dst)] else []);
    if n.git == UpdateFails then (pulled + [Settle(dst, entry)] + Cleanup(n, dst), Some(UpdateFailed(dst)))
    else (pulled + [Settle(dst, entry)], None)
  }

  /** The own work of a missing checkout: `git clone` (of the source when
      one is given, else of the entry's URL), the remote fix-up for a
      clone from another source, then settle. */
  function CloneRepo(o: Options, n: Node, dst: string, entry: Repo, src: Option<string>): (r: (seq<Event>, Option<PullError>))
    ensures r.0 != [] && r.0[0] == Operate(dst, Cloning)
    ensures r.1.None? <==> n.git !in {CloneFails, UpdateFails} && !(FromOtherSource(src, entry) && n.git in {RemoteUrlFails, FetchFails})
    ensures r.1.None? ==> r.0[|r.0| - 1] == Settle(dst, entry)
    ensures r.1 == Some(UpdateFailed(dst)) ==> r.0[|r.0| - |Cleanup(n, dst)|..] == Cleanup(n, dst)
  {
    var cloned := Prepare(n, dst, Cloning) + [GitClone(dst, if src.Some? then VStr(src.value) else entry.url)];
    if n.git == CloneFails then (cloned + Cleanup(n, dst), Some(UpdateFailed(dst)))
    else
      var fixes := FromOtherSource(src, entry);
      if fixes && n.git == RemoteUrlFails then (cloned + [SetRemoteUrls(dst, src.value)], Some(RemoteUrlFailed(dst)))
      else
        var fixed := cloned + (if fixes then [SetRemoteUrls(dst, src.value), GitFetch(dst)] else []);
        if fixes && n.git == FetchFails then (fixed, Some(FetchFailed(dst)))
        else if n.git == UpdateFails then (fixed + [Settle(dst, entry)] + Cleanup(n, dst), Some(UpdateFailed(dst)))
        else (fixed + [Settle(dst, entry)], None)
  }

  /** Everything a processed node does to itself, before its children. */
  function OwnWork(o: Options, n: Node, dst: string, entry: Repo, src: Option<string>): (r: (seq<Event>, Option<PullError>))
    ensures Refusal(o, n, dst, entry).Some? ==> r == ([], Refusal(o, n, dst, entry))
    ensures Refusal(o, n, dst, entry).None? ==> r.0 != [] && r.0[0] == Operate(dst, Chosen(o, entry, n.at))
    ensures Refusal(o, n, dst, entry).None? && !Truthy(entry.link) ==>
      (r.1 == Some(PathBlocked(dst)) <==> Blocked(n.at))
  {
    var refused := Refusal(o, n, dst, entry);
    if refused.Some? then ([], refused)
    else if Truthy(entry.link) then LinkWork(o, n, dst, Chosen(o, entry, n.at))
    else if Blocked(n.at) then ([Operate(dst, Chosen(o, entry, n.at))], Some(PathBlocked(dst)))
    else if Occupied(n.at) then PullRepo(o, n, dst, entry, src)
    else CloneRepo(o, n, dst, entry, src)
  }

  /** The hooks run after a node's children: each command in declared
      order, with the node's path as working directory. */
  function Hooks(cmds: seq<Value>, dst: string): seq<Event>
  {
    if cmds == [] then [] else Hooks(cmds[..|cmds| - 1], dst) + [RunHook(cmds[|cmds| - 1], dst)]
  }

  /** The hooks are the commands in declared order, each run at the
      node's path. */
  lemma {:induction false} HooksRunInOrder(cmds: seq<Value>, dst: string)
    ensures |Hooks(cmds, dst)| == |cmds|
    ensures forall k :: 0 <= k < |cmds| ==> Hooks(cmds, dst)[k] == RunHook(cmds[k], dst)
  {
    if cmds != [] {
      HooksRunInOrder(cmds[..|cmds| - 1], dst);
    }
  }

  lemma PrepareAtNode(n: Node, dst: string, op: Operation)
    ensures OwnEvents(Prepare(n, dst, op), dst)
  {
  }

  lemma CleanupAtNode(n: Node, dst: string)
    ensures OwnEvents(Cleanup(n, dst), dst)
  {
  }

  lemma LinkWorkAtNode(o: Options, n: Node, dst: string, op: Operation)
    ensures OwnEvents(LinkWork(o, n, dst, op).0, dst)
  {
  }

  lemma PullRepoAtNode(o: Options, n: Node, dst: string, entry: Repo, src: Option<string>)
    ensures OwnEvents(PullRepo(o, n, dst, entry, src).0, dst)
  {
    PrepareAtNode(n, dst, Pulling);
    CleanupAtNode(n, dst);
  }

  lemma CloneRepoAtNode(o: Options, n: Node, dst: string, entry: Repo, src: Option<string>)
    ensures OwnEvents(CloneRepo(o, n, dst, entry, src).0, dst)
  {
    var prep := Prepare(n, dst, Cloning);
    PrepareAtNode(n, dst, Cloning);
    CleanupAtNode(n, dst);
    var cloned := prep + [GitClone(dst, if src.Some? then VStr(src.value) else entry.url)];
    OwnEventsConcat(prep, [GitClone(dst, if src.Some? then VStr(src.value) else entry.url)], dst);
    OwnEventsConcat(cloned, Cleanup(n, dst), dst);
    var fixes := FromOtherSource(src, entry);
    if fixes {
      OwnEventsConcat(cloned, [SetRemoteUrls(dst, src.value)], dst);
    }
    var extra := if fixes then [SetRemoteUrls(dst, src.value), GitFetch(dst)] else [];
    OwnEventsConcat(cloned, extra, dst);
    OwnEventsConcat(cloned + extra, [Settle(dst, entry)], dst);
    OwnEventsConcat(cloned + extra + [Settle(dst, entry)], Cleanup(n, dst), dst);
  }

  /** Everything a node does to itself acts on its own path, and none of
      it is a hook. */
  lemma OwnWorkAtNode(o: Options, n: Node, dst: string, entry: Repo, src: Option<string>)
    ensures OwnEvents(OwnWork(o, n, dst, entry, src).0, dst)
  {
    if Refusal(o, n, dst, entry).None? {
      if Truthy(entry.link) {
        LinkWorkAtNode(o, n, dst, Chosen(o, entry, n.at));
      } else if Occupied(n.at) {
        PullRepoAtNode(o, n, dst, entry, src);
      } else {
        CloneRepoAtNode(o, n, dst, entry, src);
      }
    }
  }

  /** The hook list of a node: `post_pull` after a clone, `post_clone`
      otherwise. */
  function HookList(m: ManifestData, op: Operation): seq<Value> {
    if op == Cloning then m.postPull else m.postClone
  }

  /** What one call of `work` leaves behind: its events, the overlay
      entries it leaves in `overlay_entries`, and the exception it raised. */
  datatype Outcome = Outcome(events: seq<Event>, overlays: seq<(string, Repo)>, err: Option<PullError>)

  function EnvValue(o: Options, dst: string): string {
    if dst == o.topRoot then "1" else "0"
  }

  /** `work(src, dst, ...)` for the node `n` at `dst` whose parent
      manifest holds `entry`, given the overlay entries collected so far:
      `GITP_PARENT_REPO` is assigned first, then an overlay target returns
      at once (unless `--local`), and any other node is visited. */
  function Work(o: Options, n: Node, dst: string, entry: Repo, src: Option<string>, overlays: seq<(string, Repo)>)
    : (r: Outcome)
    requires WellFormed(n)
    ensures r.events != [] && r.events[0] == SetParentEnv(EnvValue(o, dst))
    decreases n, 3, 0
  {
    var env := SetParentEnv(EnvValue(o, dst));
    if HasKey(overlays, dst) && !o.local then Outcome([env], overlays, None)
    else
      var v := Visit(o, n, dst, entry, src, overlays);
      Outcome([env] + v.events, v.overlays, v.err)
  }

  /** A visited node: a node the target filter skips only passes on to its
      children; any other does its own work, then its children, then its
      hooks. An exception ends the visit where it is raised. */
  function Visit(o: Options, n: Node, dst: string, entry: Repo, src: Option<string>, overlays: seq<(string, Repo)>)
    : (r: Outcome)
    requires WellFormed(n)
    decreases n, 2, 0
  {
    if Skip(o, entry.link, dst) then
      match n.manifest
      case None => Outcome([], overlays, None)
      case Some(m) => Descend(o, n, m, dst, entry, src, overlays)
    else
      var own := OwnWork(o, n, dst, entry, src);
      if own.1.Some? || n.manifest.None? then Outcome(own.0, overlays, own.1)
      else
        var m := n.manifest.value;
        var kids := Descend(o, n, m, dst, entry, src, overlays);
        var hooks := if kids.err.Some? then [] else Hooks(HookList(m, Chosen(o, entry, n.at)), dst);
        Outcome(own.0 + kids.events + hooks, kids.overlays, kids.err)
  }

  /** What happens between a node's own work and its hooks: at the top
      repository its manifest's overlays replace those collected so far;
      then, unless the node is a link, its children are walked. */
  function Descend(o: Options, n: Node, m: ManifestData, dst: string, entry: Repo, src: Option<string>,
                   overlays: seq<(string, Repo)>): (r: Outcome)
    requires WellFormed(n) && n.manifest == Some(m)
    ensures Truthy(entry.link) ==> r.events == [] && r.err.None?
    decreases n, 1, 0
  {
    var ov := if dst == o.topRoot then Overlays(m) else overlays;
    if Truthy(entry.link) then Outcome([], ov, None) else WorkChildren(o, n, m, dst, src, ov, 0)
  }

  /** The children of `n` from the `i`-th on, in manifest order, stopping
      at the first exception. */
  function WorkChildren(o: Options, n: Node, m: ManifestData, dst: string, src: Option<string>,
                        overlays: seq<(string, Repo)>, i: nat): (r: Outcome)
    requires WellFormed(n) && n.manifest == Some(m) && i <= |n.children|
    decreases n, 0, |n.children| - i
  {
    if i == |n.children| then Outcome([], overlays, None)
    else
      var key := m.order[i];
      var first := Work(o, n.children[i], PathJoin(dst, key), m.repos[key], ChildSrc(src, key), overlays);
      if first.err.Some? then first
      else
        var rest := WorkChildren(o, n, m, dst, src, first.overlays, i + 1);
        Outcome(first.events + rest.events, rest.overlays, rest.err)
  }

  /** One step of the walk over the children: the `i`-th child, then
      the rest unless it raised. */
  lemma ChildrenStep(o: Options, n: Node, m: ManifestData, dst: string, src: Option<string>,
                     overlays: seq<(string, Repo)>, i: nat)
    requires WellFormed(n) && n.manifest == Some(m) && i < |n.children|
    ensures var key := m.order[i];
            var first := Work(o, n.children[i], PathJoin(dst, key), m.repos[key], ChildSrc(src, key), overlays);
            var rest := WorkChildren(o, n, m, dst, src, first.overlays, i + 1);
            WorkChildren(o, n, m, dst, src, overlays, i)
              == if first.err.Some? then first else Outcome(first.events + rest.events, rest.overlays, rest.err)
  {
  }

  /** The walk of the `i`-th child of `n`. */
  function ChildWork(o: Options, n: Node, m: ManifestData, dst: string, src: Option<string>,
                     ov: seq<(string, Repo)>, i: nat): Outcome
    requires WellFormed(n) && n.manifest == Some(m) && i < |n.children|
  {
    var key := m.order[i];
    Work(o, n.children[i], PathJoin(dst, key), m.repos[key], ChildSrc(src, key), ov)
  }

  /** Part way through the children: those before the `i`-th did `done`
      and left the overlay entries `ov`, and the walk over all of them
      from `ov0` is that followed by the walk from the `i`-th on. */
  ghost predicate ChildrenSoFar(o: Options, n: Node, m: ManifestData, dst: string, src: Option<string>,
                                ov0: seq<(string, Repo)>, done: seq<Event>, ov: seq<(string, Repo)>, i: nat)
    requires WellFormed(n) && n.manifest == Some(m) && i <= |n.children|
  {
    var rest := WorkChildren(o, n, m, dst, src, ov, i);
    WorkChildren(o, n, m, dst, src, ov0, 0) == Outcome(done + rest.events, rest.overlays, rest.err)
  }

  /** Before the first child nothing is done. */
  lemma ChildrenStart(o: Options, n: Node, m: ManifestData, dst: string, src: Option<string>, ov0: seq<(string, Repo)>)
    requires WellFormed(n) && n.manifest == Some(m)
    ensures ChildrenSoFar(o, n, m, dst, src, ov0, [], ov0, 0)
  {
    assert [] + WorkChildren(o, n, m, dst, src, ov0, 0).events == WorkChildren(o, n, m, dst, src, ov0, 0).events;
  }

  /** After the last child the walk over all of them is what was done. */
  lemma ChildrenEnd(o: Options, n: Node, m: ManifestData, dst: string, src: Option<string>,
                    ov0: seq<(string, Repo)>, done: seq<Event>, ov: seq<(string, Repo)>)
    requires WellFormed(n) && n.manifest == Some(m)
    requires ChildrenSoFar(o, n, m, dst, src, ov0, done, ov, |n.children|)
    ensures WorkChildren(o, n, m, dst, src, ov0, 0) == Outcome(done, ov, None)
  {
    assert done + [] == done;
  }

  lemma ChildrenAdvance(o: Options, n: Node, m: ManifestData, dst: string, src: Option<string>,
                        ov0: seq<(string, Repo)>, done: seq<Event>, ov: seq<(string, Repo)>, i: nat)
    requires WellFormed(n) && n.manifest == Some(m) && i < |n.children|
    requires ChildrenSoFar(o, n, m, dst, src, ov0, done, ov, i)
    ensures var first := ChildWork(o, n, m, dst, src, ov, i);
            && (first.err.Some? ==> WorkChildren(o, n, m, dst, src, ov0, 0) == Outcome(done + first.events, first.overlays, first.err))
            && (first.err.None? ==> ChildrenSoFar(o, n, m, dst, src, ov0, done + first.events, first.overlays, i + 1))
  {
    var key := m.order[i];
    var first := Work(o, n.children[i], PathJoin(dst, key), m.repos[key], ChildSrc(src, key), ov);
    ChildrenStep(o, n, m, dst, src, ov, i);
    if first.err.None? {
      AppendAssoc(done, first.events, WorkChildren(o, n, m, dst, src, first.overlays, i + 1).events);
    }
  }

  lemma NotAtConcat(a: seq<Event>, b: seq<Event>, p: string)
    requires NotAt(a, p) && NotAt(b, p)
    ensures NotAt(a + b, p)
  {
    forall k | 0 <= k < |a + b| ensures Place((a + b)[k]) != Some(p) {
      if k >= |a| { assert (a + b)[k] == b[k - |a|]; }
    }
  }

  lemma NoApplyConcat(a: seq<Event>, b: seq<Event>)
    requires NoApply(a) && NoApply(b)
    ensures NoApply(a + b)
  {
    forall k | 0 <= k < |a + b| ensures !(a + b)[k].ApplyOverlays? {
      if k >= |a| { assert (a + b)[k] == b[k - |a|]; }
    }
  }

  /** The walk itself never applies overlays: that is left to `pull`,
      after the walk. */
  lemma {:induction false} WorkNoApply(o: Options, n: Node, dst: string, entry: Repo, src: Option<string>,
                                       overlays: seq<(string, Repo)>)
    requires WellFormed(n)
    ensures NoApply(Work(o, n, dst, entry, src, overlays).events)
    decreases n, 3, 0
  {
    if !(HasKey(overlays, dst) && !o.local) {
      VisitNoApply(o, n, dst, entry, src, overlays);
      NoApplyConcat([SetParentEnv(EnvValue(o, dst))], Visit(o, n, dst, entry, src, overlays).events);
    }
  }

  lemma {:induction false} VisitNoApply(o: Options, n: Node, dst: string, entry: Repo, src: Option<string>,
                                        overlays: seq<(string, Repo)>)
    requires WellFormed(n)
    ensures NoApply(Visit(o, n, dst, entry, src, overlays).events)
    decreases n, 2, 0
  {
    if Skip(o, entry.link, dst) {
      if n.manifest.Some? {
        DescendNoApply(o, n, n.manifest.value, dst, entry, src, overlays);
      }
    } else {
      var own := OwnWork(o, n, dst, entry, src);
      OwnWorkAtNode(o, n, dst, entry, src);
      assert NoApply(own.0);
      if own.1.None? && n.manifest.Some? {
        var m := n.manifest.value;
        var kids := Descend(o, n, m, dst, entry, src, overlays);
        DescendNoApply(o, n, m, dst, entry, src, overlays);
        var cmds := HookList(m, Chosen(o, entry, n.at));
        var hooks := if kids.err.Some? then [] else Hooks(cmds, dst);
        HooksRunInOrder(cmds, dst);
        assert NoApply(hooks);
        NoApplyConcat(own.0, kids.events);
        NoApplyConcat(own.0 + kids.events, hooks);
      }
    }
  }

  lemma {:induction false} DescendNoApply(o: Options, n: Node, m: ManifestData, dst: string, entry: Repo,
                                          src: Option<string>, overlays: seq<(string, Repo)>)
    requires WellFormed(n) && n.manifest == Some(m)
    ensures NoApply(Descend(o, n, m, dst, entry, src, overlays).events)
    decreases n, 1, 0
  {
    if !Truthy(entry.link) {
      var ov := if dst == o.topRoot then Overlays(m) else overlays;
      ChildrenNoApply(o, n, m, dst, src, ov, 0);
    }
  }

  lemma {:induction false} ChildrenNoApply(o: Options, n: Node, m: ManifestData, dst: string, src: Option<string>,
                                           overlays: seq<(string, Repo)>, i: nat)
    requires WellFormed(n) && n.manifest == Some(m) && i <= |n.children|
    ensures NoApply(WorkChildren(o, n, m, dst, src, overlays, i).events)
    decreases n, 0, |n.children| - i
  {
    if i < |n.children| {
      var key := m.order[i];
      WorkNoApply(o, n.children[i], PathJoin(dst, key), m.repos[key], ChildSrc(src, key), overlays);
      var first := Work(o, n.children[i], PathJoin(dst, key), m.repos[key], ChildSrc(src, key), overlays);
      ChildrenStep(o, n, m, dst, src, overlays, i);
      if first.err.None? {
        ChildrenNoApply(o, n, m, dst, src, first.overlays, i + 1);
        NoApplyConcat(first.events, WorkChildren(o, n, m, dst, src, first.overlays, i + 1).events);
      }
    }
  }

  /** A walk acts only on paths of its own subtree, and only a walk that
      reaches the top repository changes the overlay entries. */
  lemma {:induction false} WorkStaysInside(o: Options, n: Node, dst: string, entry: Repo, src: Option<string>,
                                           overlays: seq<(string, Repo)>, p: string)
    requires WellFormed(n) && Avoids(n, dst, p)
    ensures NotAt(Work(o, n, dst, entry, src, overlays).events, p)
    ensures p == o.topRoot ==> Work(o, n, dst, entry, src, overlays).overlays == overlays
    decreases n, 3, 0
  {
    if !(HasKey(overlays, dst) && !o.local) {
      VisitStaysInside(o, n, dst, entry, src, overlays, p);
      NotAtConcat([SetParentEnv(EnvValue(o, dst))], Visit(o, n, dst, entry, src, overlays).events, p);
    }
  }

  lemma {:induction false} VisitStaysInside(o: Options, n: Node, dst: string, entry: Repo, src: Option<string>,
                                            overlays: seq<(string, Repo)>, p: string)
    requires WellFormed(n) && Avoids(n, dst, p)
    ensures NotAt(Visit(o, n, dst, entry, src, overlays).events, p)
    ensures p == o.topRoot ==> Visit(o, n, dst, entry, src, overlays).overlays == overlays
    decreases n, 2, 0
  {
    if Skip(o, entry.link, dst) {
      if n.manifest.Some? {
        DescendStaysInside(o, n, n.manifest.value, dst, entry, src, overlays, p);
      }
    } else {
      var own := OwnWork(o, n, dst, entry, src);
      OwnWorkAtNode(o, n, dst, entry, src);
      assert NotAt(own.0, p);
      if own.1.None? && n.manifest.Some? {
        var m := n.manifest.value;
        var kids := Descend(o, n, m, dst, entry, src, overlays);
        DescendStaysInside(o, n, m, dst, entry, src, overlays, p);
        var cmds := HookList(m, Chosen(o, entry, n.at));
        var hooks := if kids.err.Some? then [] else Hooks(cmds, dst);
        HooksRunInOrder(cmds, dst);
        assert NotAt(hooks, p);
        NotAtConcat(own.0, kids.events, p);
        NotAtConcat(own.0 + kids.events, hooks, p);
      }
    }
  }

  lemma {:induction false} DescendStaysInside(o: Options, n: Node, m: ManifestData, dst: string, entry: Repo,
                                              src: Option<string>, overlays: seq<(string, Repo)>, p: string)
    requires WellFormed(n) && n.manifest == Some(m) && ChildrenAvoid(n, dst, p)
    ensures NotAt(Descend(o, n, m, dst, entry, src, overlays).events, p)
    ensures p == o.topRoot && dst != p ==> Descend(o, n, m, dst, entry, src, overlays).overlays == overlays
    decreases n, 1, 0
  {
    if !Truthy(entry.link) {
      var ov := if dst == o.topRoot then Overlays(m) else overlays;
      ChildrenStayInside(o, n, m, dst, src, ov, 0, p);
    }
  }

  lemma {:induction false} ChildrenStayInside(o: Options, n: Node, m: ManifestData, dst: string, src: Option<string>,
                                              overlays: seq<(string, Repo)>, i: nat, p: string)
    requires WellFormed(n) && n.manifest == Some(m) && i <= |n.children| && ChildrenAvoid(n, dst, p)
    ensures NotAt(WorkChildren(o, n, m, dst, src, overlays, i).events, p)
    ensures p == o.topRoot ==> WorkChildren(o, n, m, dst, src, overlays, i).overlays == overlays
    decreases n, 0, |n.children| - i
  {
    if i < |n.children| {
      var key := m.order[i];
      assert Avoids(n.children[i], PathJoin(dst, key), p);
      WorkStaysInside(o, n.children[i], PathJoin(dst, key), m.repos[key], ChildSrc(src, key), overlays, p);
      var first := Work(o, n.children[i], PathJoin(dst, key), m.repos[key], ChildSrc(src, key), overlays);
      ChildrenStep(o, n, m, dst, src, overlays, i);
      if first.err.None? {
        var rest := WorkChildren(o, n, m, dst, src, first.overlays, i + 1);
        ChildrenStayInside(o, n, m, dst, src, first.overlays, i + 1, p);
        NotAtConcat(first.events, rest.events, p);
        assert WorkChildren(o, n, m, dst, src, overlays, i).events == first.events + rest.events;
      }
    }
  }

  /** The path of an overlay entry is left alone (without `--local`): the
      walk only assigns the environment variable there and returns, and
      none of its children is visited. */
  lemma OverlayTargetUntouched(o: Options, n: Node, dst: string, entry: Repo, src: Option<string>,
                               overlays: seq<(string, Repo)>)
    requires WellFormed(n) && HasKey(overlays, dst) && !o.local
    ensures Work(o, n, dst, entry, src, overlays) == Outcome([SetParentEnv(EnvValue(o, dst))], overlays, None)
  {
  }

  /** A node the target filter skips performs no operation and runs no
      hook: nothing happens at its path, though its children are still
      walked. */
  lemma SkippedNodeIdle(o: Options, n: Node, dst: string, entry: Repo, src: Option<string>,
                        overlays: seq<(string, Repo)>)
    requires WellFormed(n) && Skip(o, entry.link, dst) && ChildrenAvoid(n, dst, dst)
    ensures NotAt(Work(o, n, dst, entry, src, overlays).events, dst)
  {
    if !(HasKey(overlays, dst) && !o.local) {
      var v := Visit(o, n, dst, entry, src, overlays);
      if n.manifest.Some? {
        DescendStaysInside(o, n, n.manifest.value, dst, entry, src, overlays, dst);
      }
      NotAtConcat([SetParentEnv(EnvValue(o, dst))], v.events, dst);
    }
  }

  /** A link is not descended into: apart from the environment variable,
      every event of its walk is at its own path. */
  lemma LinksNotEntered(o: Options, n: Node, dst: string, entry: Repo, src: Option<string>,
                        overlays: seq<(string, Repo)>)
    requires WellFormed(n) && Truthy(entry.link)
    ensures AllAt(Work(o, n, dst, entry, src, overlays).events[1..], dst)
  {
    if !(HasKey(overlays, dst) && !o.local) {
      var v := Visit(o, n, dst, entry, src, overlays);
      LinkVisitAtNode(o, n, dst, entry, src, overlays);
      assert Work(o, n, dst, entry, src, overlays).events[1..] == v.events;
    }
  }

  lemma LinkVisitAtNode(o: Options, n: Node, dst: string, entry: Repo, src: Option<string>,
                        overlays: seq<(string, Repo)>)
    requires WellFormed(n) && Truthy(entry.link)
    ensures AllAt(Visit(o, n, dst, entry, src, overlays).events, dst)
  {
    if !Skip(o, entry.link, dst) {
      var own := OwnWork(o, n, dst, entry, src);
      OwnWorkAtNode(o, n, dst, entry, src);
      if own.1.None? && n.manifest.Some? {
        var cmds := HookList(n.manifest.value, Chosen(o, entry, n.at));
        HooksRunInOrder(cmds, dst);
        assert Visit(o, n, dst, entry, src, overlays).events == own.0 + [] + Hooks(cmds, dst);
        AllAtConcat(own.0, Hooks(cmds, dst), dst);
      }
    }
  }

  /** Every event of `t` acts at `p`. */
  predicate AllAt(t: seq<Event>, p: string) {
    forall k :: 0 <= k < |t| ==> Place(t[k]) == Some(p)
  }

  lemma AllAtConcat(a: seq<Event>, b: seq<Event>, p: string)
    requires AllAt(a, p) && AllAt(b, p)
    ensures AllAt(a + b, p)
  {
    forall k | 0 <= k < |a + b| ensures Place((a + b)[k]) == Some(p) {
      if k >= |a| { assert (a + b)[k] == b[k - |a|]; }
    }
  }

  /** The order of one node's walk: the environment variable, then its
      own work (beginning with the chosen operation), then its children,
      then its hooks. Where each part acts is stated by `OwnWorkAtNode`,
      `DescendStaysInside` and `HooksRunInOrder`: the hooks are
      `post_pull` after a clone and `post_clone` after anything else. */
  lemma TraversalOrder(o: Options, n: Node, dst: string, entry: Repo, src: Option<string>,
                       overlays: seq<(string, Repo)>)
    requires WellFormed(n) && n.manifest.Some?
    requires !(HasKey(overlays, dst) && !o.local) && !Skip(o, entry.link, dst)
    requires OwnWork(o, n, dst, entry, src).1.None?
    requires Descend(o, n, n.manifest.value, dst, entry, src, overlays).err.None?
    ensures var own := OwnWork(o, n, dst, entry, src).0;
            var kids := Descend(o, n, n.manifest.value, dst, entry, src, overlays).events;
            var hooks := Hooks(HookList(n.manifest.value, Chosen(o, entry, n.at)), dst);
            && Work(o, n, dst, entry, src, overlays).events == [SetParentEnv(EnvValue(o, dst))] + own + kids + hooks
            && own[0] == Operate(dst, Chosen(o, entry, n.at))
  {
    var m := n.manifest.value;
    var env := [SetParentEnv(EnvValue(o, dst))];
    var own := OwnWork(o, n, dst, entry, src).0;
    var kids := Descend(o, n, m, dst, entry, src, overlays).events;
    var hooks := Hooks(HookList(m, Chosen(o, entry, n.at)), dst);
    VisitOrder(o, n, dst, entry, src, overlays);
    AppendAssoc(env, own + kids, hooks);
    AppendAssoc(env, own, kids);
  }

  lemma AppendAssoc(a: seq<Event>, b: seq<Event>, c: seq<Event>)
    ensures a + (b + c) == (a + b) + c
  {
  }

  lemma VisitOrder(o: Options, n: Node, dst: string, entry: Repo, src: Option<string>,
                   overlays: seq<(string, Repo)>)
    requires WellFormed(n) && n.manifest.Some? && !Skip(o, entry.link, dst)
    requires OwnWork(o, n, dst, entry, src).1.None?
    requires Descend(o, n, n.manifest.value, dst, entry, src, overlays).err.None?
    ensures var kids := Descend(o, n, n.manifest.value, dst, entry, src, overlays);
            Visit(o, n, dst, entry, src, overlays)
              == Outcome(OwnWork(o, n, dst, entry, src).0 + kids.events
                         + Hooks(HookList(n.manifest.value, Chosen(o, entry, n.at)), dst), kids.overlays, None)
  {
  }

  /** `GITP_PARENT_REPO` is `'1'` exactly while the top repository is visited. */
  lemma ParentEnvMarksTop(o: Options, n: Node, dst: string, entry: Repo, src: Option<string>,
                          overlays: seq<(string, Repo)>)
    requires WellFormed(n)
    ensures Work(o, n, dst, entry, src, overlays).events[0] == SetParentEnv("1") <==> dst == o.topRoot
  {
  }

  /** `--local` as the command line gives it: absent, given alone, or
      given with a value naming one repository. */
  datatype LocalOption = NotLocal | AllLocal | LocalTarget(value: string)

  datatype PullArgs = PullArgs(src: Option<string>, target: Option<string>, local: LocalOption, force: bool, extra: seq<string>)

  /** What `pull` learns before it walks: the top repository, whether the
      root given is a link, whether `check_for_state_match` reports an
      UNALIGNED repository, and the top repository's first fetch URL and
      current branch. */
  datatype TopFacts = TopFacts(topRoot: string, rootIsLink: bool, unaligned: bool, url: Value, branch: string)

  /** The top repository has no parent entry: its URL is its first remote's
      fetch URL, its branch the current one, and it has no commit or link. */
  function TopEntry(t: TopFacts): Repo {
    BlankRepo.(url := t.url, branch := VStr(t.branch), commit := VStr([]), link := VStr([]))
  }

  /** `--local` with a value, as `pull` evidently means it: that value
      becomes the target and `--local` is switched on. */
  function PullOptions(a: PullArgs, t: TopFacts): (o: Options)
    ensures a.local.LocalTarget? ==> o.target == Some(a.local.value) && o.local
    ensures !a.local.LocalTarget? ==> o.target == a.target && (o.local <==> a.local == AllLocal)
  {
    Options(t.topRoot, if a.local.LocalTarget? then Some(a.local.value) else a.target,
            !a.local.NotLocal?, a.force, a.extra)
  }

  /** The options as `pull` writes them: the value of `--local` is a
      string, so `args.local[0]` is its first character, and an empty
      value raises `IndexError` (`None` here). */
  function PullOptionsAsWritten(a: PullArgs, t: TopFacts): (r: Option<Options>)
    ensures r.None? <==> a.local == LocalTarget([])
    ensures r.Some? && a.local.LocalTarget? ==> r.value.target == Some([a.local.value[0]]) && r.value.local
    ensures r.Some? && !a.local.LocalTarget? ==> r == Some(PullOptions(a, t))
  {
    match a.local
    case LocalTarget(v) => if v == [] then None else Some(Options(t.topRoot, Some([v[0]]), true, a.force, a.extra))
    case _ => Some(PullOptions(a, t))
  }

  /** `pull --local sub` from `/w`: as written the target becomes `"s"`,
      so the repository `/w/sub` itself is skipped while an unrelated link
      at `/w/src` is copied; with the whole value as target it is the
      other way round. */
  lemma LocalTargetTruncated()
    ensures var a := PullArgs(None, None, LocalTarget("sub"), false, []);
            var t := TopFacts("/w", false, false, VNone, "main");
            var written := PullOptionsAsWritten(a, t).value;
            && written.target == Some("s")
            && Skip(written, VNone, "/w/sub") && !Skip(written, VStr("/links/src"), "/w/src")
            && !Skip(PullOptions(a, t), VNone, "/w/sub") && Skip(PullOptions(a, t), VStr("/links/src"), "/w/src")
  {
    var a := PullArgs(None, None, LocalTarget("sub"), false, []);
    var t := TopFacts("/w", false, false, VNone, "main");
    assert PullOptionsAsWritten(a, t) == Some(Options("/w", Some("s"), true, false, []));
    assert PullOptions(a, t) == Options("/w", Some("sub"), true, false, []);
    TruncatedTargetFilter();
    WholeTargetFilter();
  }

  lemma TruncatedTargetFilter()
    ensures var written := Options("/w", Some("s"), true, false, []);
            Skip(written, VNone, "/w/sub") && !Skip(written, VStr("/links/src"), "/w/src")
  {
    JoinUnder("/w", "s");
    assert StartsWith("/w/src", "/w/s");
    assert "/w/s" != "/w/sub";
    assert !EndsWith("s", "/");
  }

  lemma WholeTargetFilter()
    ensures var fixed := Options("/w", Some("sub"), true, false, []);
            !Skip(fixed, VNone, "/w/sub") && Skip(fixed, VStr("/links/src"), "/w/src")
  {
    JoinUnder("/w", "sub");
    assert !StartsWith("/w/src", "/w/sub") by { assert "/w/src"[..6][5] != "/w/sub"[5]; }
    assert !EndsWith("sub", "/");
    assert StripTrailingSeps("/w/sub") == "/w/sub";
  }

  lemma JoinUnder(a: string, b: string)
    requires a != [] && a[|a| - 1] != '/' && b != [] && b[0] != '/'
    ensures PathJoin(a, b) == a + "/" + b
  {
    assert !StartsWith(b, "/") by { assert b[..1][0] != '/'; }
  }

  /** With `--local <repo>` the repository named is processed and, of the
      entries that are not links, only it: the value names one repository
      relative to the top. */
  lemma LocalTargetSelects(a: PullArgs, t: TopFacts, link: Value, dst: string)
    requires a.local.LocalTarget? && a.local.value != [] && !EndsWith(a.local.value, "/")
    ensures !Skip(PullOptions(a, t), link, PathJoin(t.topRoot, a.local.value))
    ensures !Truthy(link) ==> (!Skip(PullOptions(a, t), link, dst) <==> dst == PathJoin(t.topRoot, a.local.value))
  {
    var j := PathJoin(t.topRoot, a.local.value);
    assert StartsWith(j, j);
  }

  /** `pull` once its options are settled: refuse a root that is a link
      or a tree with UNALIGNED repositories, walk from the top repository,
      then apply the top manifest's overlays unless `--local` was given. */
  function RunWith(o: Options, src: Option<string>, t: TopFacts, root: Node): (seq<Event>, Option<PullError>)
    requires WellFormed(root)
  {
    if t.rootIsLink then ([], Some(RootIsSymlink))
    else if t.unaligned then ([], Some(UnalignedRepos))
    else
      var w := Work(o, root, t.topRoot, TopEntry(t), src, []);
      if w.err.Some? then (w.events, w.err)
      else if o.local then (w.events, None)
      else (w.events + [ApplyOverlays(w.overlays, if o.target.Some? then [o.target.value] else [])], None)
  }

  /** `pull` as written: the options come from `args.local[0]`, whose
      `IndexError` on an empty value ends the run before anything else. */
  function PullRun(a: PullArgs, t: TopFacts, root: Node): (r: (seq<Event>, Option<PullError>))
    requires WellFormed(root)
    ensures r == ([], Some(EmptyLocalValue)) <==> a.local == LocalTarget([])
    ensures !a.local.LocalTarget? ==> r == PullRunIntended(a, t, root)
  {
    match PullOptionsAsWritten(a, t)
    case None => ([], Some(EmptyLocalValue))
    case Some(o) => RunWith(o, a.src, t, root)
  }

  /** `pull` as evidently intended: `--local <repo>` targets that whole
      repository. */
  function PullRunIntended(a: PullArgs, t: TopFacts, root: Node): (seq<Event>, Option<PullError>)
    requires WellFormed(root)
  {
    RunWith(PullOptions(a, t), a.src, t, root)
  }

  /** The truncation is invisible only when the `--local` value is a
      single character: then the run as written is the intended one. */
  lemma SingleCharacterTargetAgrees(a: PullArgs, t: TopFacts, root: Node)
    requires WellFormed(root) && a.local.LocalTarget? && |a.local.value| == 1
    ensures PullRun(a, t, root) == PullRunIntended(a, t, root)
  {
    assert [a.local.value[0]] == a.local.value;
  }

  /** Overlays are applied once, after the whole walk, and only when it
      succeeded without `--local`. */
  lemma OverlaysAppliedLast(o: Options, src: Option<string>, t: TopFacts, root: Node)
    requires WellFormed(root)
    ensures var (events, err) := RunWith(o, src, t, root);
            forall k :: 0 <= k < |events| - 1 ==> !events[k].ApplyOverlays?
    ensures var (events, err) := RunWith(o, src, t, root);
            (events != [] && events[|events| - 1].ApplyOverlays?) <==> err.None? && !o.local
  {
    if !t.rootIsLink && !t.unaligned {
      WorkNoApply(o, root, t.topRoot, TopEntry(t), src, []);
    }
  }

  /** The overlays applied are exactly those of the top manifest: the
      manifests found deeper are never consulted for overlays. */
  lemma TopOverlaysApplied(o: Options, src: Option<string>, t: TopFacts, root: Node, m: ManifestData)
    requires WellFormed(root) && root.manifest == Some(m) && ChildrenAvoid(root, t.topRoot, t.topRoot)
    requires o.topRoot == t.topRoot && RunWith(o, src, t, root).1.None? && !o.local
    ensures var events := RunWith(o, src, t, root).0;
            events[|events| - 1].entries == Overlays(m)
  {
    var entry := TopEntry(t);
    var none: seq<(string, Repo)> := [];
    assert !HasKey(none, t.topRoot);
    ChildrenStayInside(o, root, m, t.topRoot, src, Overlays(m), 0, t.topRoot);
    var d := Descend(o, root, m, t.topRoot, entry, src, none);
    assert d.overlays == Overlays(m);
    var v := Visit(o, root, t.topRoot, entry, src, none);
    assert v.err.None? ==> v.overlays == d.overlays;
  }
}
