/** Target resolution of `exec` (gitparent/gitp.py): `work` walks the
    manifest tree, removes from `args.tgt` the first target naming each
    repo it visits, selects repos by target, by filter or by local changes,
    and records each selected repo with the reason, if any, to skip it.
    Targets left over afterwards raise. Whether a path exists, is a link
    or has changes, and whether a filter matches a path, are inputs; the
    commands themselves are not run in this model. */
module Exec {
  import opened Wrappers
  import opened Text

  /** `skip_reason`: `False`, 'not locally present' or 'linked to <target>'. */
  datatype Skip = NoSkip | NotPresent | LinkedTo(target: string)

  function SkipText(k: Skip): string {
    match k
    case NoSkip => ""
    case NotPresent => "not locally present"
    case LinkedTo(t) => "linked to " + t
  }

  /** A repo as `exec` sees it: whether its path exists, where it links to
      if it is a link, whether it has local changes, whether it has a
      manifest, and that manifest's children by name, in order. */
  datatype ExecNode = ExecNode(present: bool, link: Option<string>, changed: bool,
                               hasManifest: bool, children: seq<(string, ExecNode)>)

  /** The options `work` reads: the filters, `--modified`, and
      `re.search(regex, path)` as an input. */
  datatype Config = Config(regexes: seq<string>, modified: bool, search: (string, string) -> bool)

  /** An element of `command_targets`: `(level, root, skip_reason)`. */
  datatype Entry = Entry(level: nat, root: string, skip: Skip)

  /** What the walk changes: the targets still unresolved and `command_targets`. */
  datatype State = State(tgt: seq<string>, targets: seq<Entry>)

  datatype ExecError = NoCommands | UnresolvedTargets(tgt: seq<string>)

  /** The index of the first target naming `root`, if any. */
  function FirstIndex(tgt: seq<string>, root: string): (r: Option<nat>)
    ensures r.Some? ==> r.value < |tgt| && tgt[r.value] == root && root !in tgt[..r.value]
    ensures r.None? <==> root !in tgt
  {
    if tgt == [] then None
    else if tgt[0] == root then Some(0)
    else match FirstIndex(tgt[1..], root)
      case None => None
      case Some(k) => (assert tgt[1..][..k] == tgt[1..k + 1]; Some(k + 1))
  }

  /** Some filter matches `root`. */
  function AnyMatch(search: (string, string) -> bool, regexes: seq<string>, root: string): (r: bool)
    ensures r <==> exists i :: 0 <= i < |regexes| && search(regexes[i], root)
  {
    if regexes == [] then false
    else search(regexes[0], root) || (AnyMatch(search, regexes[1..], root) && assert regexes[1..][0] == regexes[1]; true)
  }

  function Remove(tgt: seq<string>, k: nat): seq<string>
    requires k < |tgt|
  {
    tgt[..k] + tgt[k + 1..]
  }

  /** `added` before `--modified` is applied, and the targets left. */
  function Select(c: Config, tgt: seq<string>, root: string): (seq<string>, bool) {
    match FirstIndex(tgt, root)
    case Some(k) => (Remove(tgt, k), true)
    case None => (tgt, AnyMatch(c.search, c.regexes, root))
  }

  /** `added` once `--modified` has replaced it. */
  function Added(c: Config, selected: bool, node: ExecNode): bool {
    if c.modified then node.changed else selected
  }

  /** The reason to skip a selected repo. */
  function SkipOf(node: ExecNode): Skip {
    if !node.present then NotPresent
    else if node.link.Some? then LinkedTo(node.link.value)
    else NoSkip
  }

  /** `work(root, level)` */
  function Visit(c: Config, s: State, root: string, node: ExecNode, level: nat): State
    decreases node, 1, 0
  {
    var (tgt, selected) := Select(c, s.tgt, root);
    var added := Added(c, selected, node);
    var skip := if added then SkipOf(node) else NoSkip;
    var s1 := State(tgt, s.targets + (if added then [Entry(level, root, skip)] else []));
    if skip != NoSkip || !node.hasManifest then s1
    else Children(c, s1, root, node, node.children, level + 2, 0)
  }

  /** `for child in m: work(os.path.join(root, child), level + 2)`, from the
      `i`-th child on. */
  function Children(c: Config, s: State, root: string, node: ExecNode, cs: seq<(string, ExecNode)>, level: nat, i: nat): State
    requires node.children == cs && i <= |cs|
    decreases node, 0, |cs| - i
  {
    if i == |cs| then s
    else
      ChildBelow(node, cs, i);
      Children(c, Visit(c, s, PathJoin(root, cs[i].0), cs[i].1, level), root, node, cs, level, i + 1)
  }

  lemma ChildBelow(node: ExecNode, cs: seq<(string, ExecNode)>, i: nat)
    requires node.children == cs && i < |cs|
    ensures cs[i].1 < node
  {
    assert cs[i] in node.children;
  }

  /** Every path the walk could reach from `root`. */
  ghost function Paths(root: string, node: ExecNode): set<string>
    decreases node, 1
  {
    {root} + if node.hasManifest then ChildPaths(root, node, node.children, 0) else {}
  }

  ghost function ChildPaths(root: string, node: ExecNode, cs: seq<(string, ExecNode)>, i: nat): set<string>
    requires node.children == cs && i <= |cs|
    decreases node, 0, |cs| - i
  {
    if i == |cs| then {}
    else
      ChildBelow(node, cs, i);
      Paths(PathJoin(root, cs[i].0), cs[i].1) + ChildPaths(root, node, cs, i + 1)
  }

  lemma SelectKeeps(c: Config, tgt: seq<string>, root: string, t: string)
    ensures multiset(Select(c, tgt, root).0) <= multiset(tgt)
    ensures t != root ==> multiset(Select(c, tgt, root).0)[t] == multiset(tgt)[t]
    ensures root in tgt ==> multiset(Select(c, tgt, root).0)[root] == multiset(tgt)[root] - 1
  {
    match FirstIndex(tgt, root)
    case None =>
    case Some(k) =>
      assert tgt == tgt[..k] + [tgt[k]] + tgt[k + 1..];
  }

  /** The walk only removes targets, and never one that names no path
      below `root`. */
  lemma {:induction false} VisitKeeps(c: Config, s: State, root: string, node: ExecNode, level: nat, t: string)
    ensures multiset(Visit(c, s, root, node, level).tgt) <= multiset(s.tgt)
    ensures t !in Paths(root, node) ==> multiset(Visit(c, s, root, node, level).tgt)[t] == multiset(s.tgt)[t]
    decreases node, 1, 0
  {
    var (tgt, selected) := Select(c, s.tgt, root);
    SelectKeeps(c, s.tgt, root, t);
    var added := Added(c, selected, node);
    var skip := if added then SkipOf(node) else NoSkip;
    var s1 := State(tgt, s.targets + (if added then [Entry(level, root, skip)] else []));
    if skip == NoSkip && node.hasManifest {
      ChildrenKeeps(c, s1, root, node, node.children, level + 2, 0, t);
    }
  }

  lemma {:induction false} ChildrenKeeps(c: Config, s: State, root: string, node: ExecNode, cs: seq<(string, ExecNode)>,
                                         level: nat, i: nat, t: string)
    requires node.children == cs && i <= |cs|
    ensures multiset(Children(c, s, root, node, cs, level, i).tgt) <= multiset(s.tgt)
    ensures t !in ChildPaths(root, node, cs, i) ==> multiset(Children(c, s, root, node, cs, level, i).tgt)[t] == multiset(s.tgt)[t]
    decreases node, 0, |cs| - i
  {
    if i < |cs| {
      ChildBelow(node, cs, i);
      var s1 := Visit(c, s, PathJoin(root, cs[i].0), cs[i].1, level);
      VisitKeeps(c, s, PathJoin(root, cs[i].0), cs[i].1, level, t);
      ChildrenKeeps(c, s1, root, node, cs, level, i + 1, t);
    }
  }

  /** A target naming the repo a walk starts at is resolved there. */
  lemma {:induction false} VisitResolvesRoot(c: Config, s: State, root: string, node: ExecNode, level: nat)
    requires root in s.tgt
    ensures multiset(Visit(c, s, root, node, level).tgt)[root] < multiset(s.tgt)[root]
  {
    var (tgt, selected) := Select(c, s.tgt, root);
    SelectKeeps(c, s.tgt, root, root);
    var added := Added(c, selected, node);
    var skip := if added then SkipOf(node) else NoSkip;
    var s1 := State(tgt, s.targets + (if added then [Entry(level, root, skip)] else []));
    if skip == NoSkip && node.hasManifest {
      ChildrenKeeps(c, s1, root, node, node.children, level + 2, 0, root);
    }
  }

  /** The start of the walk: its first entry is the repo it starts at,
      whenever that repo is selected. */
  lemma {:induction false} VisitRecordsRootFirst(c: Config, s: State, root: string, node: ExecNode, level: nat)
    requires Added(c, Select(c, s.tgt, root).1, node)
    ensures var r := Visit(c, s, root, node, level).targets;
      |r| > |s.targets| && r[..|s.targets| + 1] == s.targets + [Entry(level, root, SkipOf(node))]
  {
    var (tgt, selected) := Select(c, s.tgt, root);
    var e := Entry(level, root, SkipOf(node));
    var s1 := State(tgt, s.targets + [e]);
    if SkipOf(node) == NoSkip && node.hasManifest {
      ChildrenExtends(c, s1, root, node, node.children, level + 2, 0);
    }
  }

  /** The walk only appends to `command_targets`. */
  lemma {:induction false} VisitExtends(c: Config, s: State, root: string, node: ExecNode, level: nat)
    ensures var r := Visit(c, s, root, node, level).targets; |r| >= |s.targets| && r[..|s.targets|] == s.targets
    decreases node, 1, 0
  {
    var (tgt, selected) := Select(c, s.tgt, root);
    var added := Added(c, selected, node);
    var skip := if added then SkipOf(node) else NoSkip;
    var s1 := State(tgt, s.targets + (if added then [Entry(level, root, skip)] else []));
    assert s1.targets[..|s.targets|] == s.targets;
    if skip == NoSkip && node.hasManifest {
      ChildrenExtends(c, s1, root, node, node.children, level + 2, 0);
    }
  }

  lemma {:induction false} ChildrenExtends(c: Config, s: State, root: string, node: ExecNode, cs: seq<(string, ExecNode)>,
                                           level: nat, i: nat)
    requires node.children == cs && i <= |cs|
    ensures var r := Children(c, s, root, node, cs, level, i).targets; |r| >= |s.targets| && r[..|s.targets|] == s.targets
    decreases node, 0, |cs| - i
  {
    if i < |cs| {
      ChildBelow(node, cs, i);
      var s1 := Visit(c, s, PathJoin(root, cs[i].0), cs[i].1, level);
      VisitExtends(c, s, PathJoin(root, cs[i].0), cs[i].1, level);
      ChildrenExtends(c, s1, root, node, cs, level, i + 1);
      var r := Children(c, s1, root, node, cs, level, i + 1).targets;
      assert r[..|s.targets|] == r[..|s1.targets|][..|s.targets|];
    }
  }

  /** With `--modified`, a repo without local changes is not recorded even
      when a target names it, though the target is still used up. */
  lemma ModifiedOverridesTarget(c: Config, s: State, root: string, node: ExecNode, level: nat)
    requires c.modified && !node.changed && root in s.tgt
    ensures Select(c, s.tgt, root).1
    ensures !Added(c, Select(c, s.tgt, root).1, node)
    ensures multiset(Select(c, s.tgt, root).0)[root] == multiset(s.tgt)[root] - 1
  {
    SelectKeeps(c, s.tgt, root, root);
  }

  /** The filters: those given, or `['.*']` when neither a target nor a
      filter is given. */
  function Filters(tgt: seq<string>, filter: seq<string>): seq<string> {
    if filter == [] && tgt == [] then [".*"] else filter
  }

  /** The commands, empty ones dropped. */
  function NonEmpty(cmds: seq<string>): (r: seq<string>)
    ensures forall i :: 0 <= i < |r| ==> r[i] != []
    ensures forall x :: x in r <==> x in cmds && x != []
  {
    if cmds == [] then []
    else (if cmds[0] == [] then [] else [cmds[0]]) + NonEmpty(cmds[1..])
  }

  /** `exec` up to running the commands: the repos to run them in, or the
      exception it raises. */
  function ExecTargets(tgt: seq<string>, filter: seq<string>, modified: bool, search: (string, string) -> bool,
                       cmds: seq<string>, repoRoot: string, root: ExecNode): Result<seq<Entry>, ExecError>
  {
    if NonEmpty(cmds) == [] then Err(NoCommands)
    else
      var c := Config(Filters(tgt, filter), modified, search);
      var s := Visit(c, State(tgt, []), repoRoot, root, 0);
      if s.tgt != [] then Err(UnresolvedTargets(s.tgt)) else Ok(s.targets)
  }

  /** `exec` raises "No commands specified" exactly when every command is
      empty. */
  lemma NoCommandsIff(tgt: seq<string>, filter: seq<string>, modified: bool, search: (string, string) -> bool,
                      cmds: seq<string>, repoRoot: string, root: ExecNode)
    ensures ExecTargets(tgt, filter, modified, search, cmds, repoRoot, root) == Err(NoCommands)
      <==> forall i :: 0 <= i < |cmds| ==> cmds[i] == []
  {
    if forall i :: 0 <= i < |cmds| ==> cmds[i] == [] {
      if NonEmpty(cmds) != [] {
        assert NonEmpty(cmds)[0] in cmds;
      }
    } else {
      var i :| 0 <= i < |cmds| && cmds[i] != [];
      assert cmds[i] in NonEmpty(cmds);
    }
  }

  /** A target that names no repo of the tree makes `exec` raise. */
  lemma UnknownTargetRaises(tgt: seq<string>, filter: seq<string>, modified: bool, search: (string, string) -> bool,
                            cmds: seq<string>, repoRoot: string, root: ExecNode, t: string)
    requires NonEmpty(cmds) != [] && t in tgt && t !in Paths(repoRoot, root)
    ensures ExecTargets(tgt, filter, modified, search, cmds, repoRoot, root).Err?
    ensures ExecTargets(tgt, filter, modified, search, cmds, repoRoot, root).error.UnresolvedTargets?
  {
    var c := Config(Filters(tgt, filter), modified, search);
    VisitKeeps(c, State(tgt, []), repoRoot, root, 0, t);
    var s := Visit(c, State(tgt, []), repoRoot, root, 0);
    assert t in multiset(s.tgt);
  }

  /** Targets that come back unresolved are among those given. */
  lemma UnresolvedAreGiven(tgt: seq<string>, filter: seq<string>, modified: bool, search: (string, string) -> bool,
                           cmds: seq<string>, repoRoot: string, root: ExecNode)
    requires ExecTargets(tgt, filter, modified, search, cmds, repoRoot, root).Err?
    requires ExecTargets(tgt, filter, modified, search, cmds, repoRoot, root).error.UnresolvedTargets?
    ensures var left := ExecTargets(tgt, filter, modified, search, cmds, repoRoot, root).error.tgt;
      left != [] && multiset(left) <= multiset(tgt)
  {
    var c := Config(Filters(tgt, filter), modified, search);
    VisitKeeps(c, State(tgt, []), repoRoot, root, 0, repoRoot);
  }

  /** With neither targets nor filters, and a search in which `.*` matches
      every path, the repo at the root is always the first one recorded. */
  lemma DefaultSelectsRoot(filter: seq<string>, modified: bool, search: (string, string) -> bool,
                           cmds: seq<string>, repoRoot: string, root: ExecNode)
    requires NonEmpty(cmds) != [] && filter == [] && !modified && search(".*", repoRoot)
    ensures var r := ExecTargets([], filter, modified, search, cmds, repoRoot, root);
      r.Ok? && r.value != [] && r.value[0] == Entry(0, repoRoot, SkipOf(root))
  {
    var c := Config([".*"], modified, search);
    assert AnyMatch(search, [".*"], repoRoot);
    VisitRecordsRootFirst(c, State([], []), repoRoot, root, 0);
    VisitKeeps(c, State([], []), repoRoot, root, 0, repoRoot);
    var s := Visit(c, State([], []), repoRoot, root, 0);
    assert s.targets[..1] == [Entry(0, repoRoot, SkipOf(root))];
    assert s.targets[0] == s.targets[..1][0];
  }

  /** The state `work` shares across its recursive calls: `args.tgt` and
      `command_targets`. */
  class Executor {
    const config: Config
    var tgt: seq<string>
    var commandTargets: seq<Entry>

    constructor(c: Config, targets: seq<string>)
      ensures config == c && tgt == targets && commandTargets == []
    {
      config := c;
      tgt := targets;
      commandTargets := [];
    }

    /** `work(root, level)` for the repo `node`. */
    method Work(root: string, node: ExecNode, level: nat)
      modifies this
      ensures State(tgt, commandTargets) == Visit(config, old(State(tgt, commandTargets)), root, node, level)
      decreases node, 1, 0
    {
      ghost var s0 := State(tgt, commandTargets);
      var added := false;
      var skip := NoSkip;
      var i := 0;
      while i < |tgt|
        invariant 0 <= i <= |tgt| && tgt == old(tgt)
        invariant root !in tgt[..i]
      {
        if tgt[i] == root {
          tgt := tgt[..i] + tgt[i + 1..];
          added := true;
          break;
        }
        assert tgt[..i + 1] == tgt[..i] + [tgt[i]];
        i := i + 1;
      }
      if !added {
        var j := 0;
        while j < |config.regexes|
          invariant 0 <= j <= |config.regexes|
          invariant forall k :: 0 <= k < j ==> !config.search(config.regexes[k], root)
        {
          if config.search(config.regexes[j], root) {
            added := true;
            break;
          }
          j := j + 1;
        }
      }
      ghost var sel := Select(config, s0.tgt, root);
      assert tgt == sel.0 && added == sel.1;
      if config.modified {
        added := node.changed;
      }
      assert added == Added(config, sel.1, node);
      if added {
        if !node.present {
          skip := NotPresent;
        } else if node.link.Some? {
          skip := LinkedTo(node.link.value);
        }
        commandTargets := commandTargets + [Entry(level, root, skip)];
      }
      assert skip == (if added then SkipOf(node) else NoSkip);
      assert commandTargets == s0.targets + (if added then [Entry(level, root, skip)] else []);
      if skip == NoSkip && node.hasManifest {
        WorkChildren(root, node, node.children, level + 2);
      }
    }

    /** The children of `node`'s manifest, in order. */
    method WorkChildren(root: string, node: ExecNode, cs: seq<(string, ExecNode)>, level: nat)
      requires node.children == cs
      modifies this
      ensures State(tgt, commandTargets) == Children(config, old(State(tgt, commandTargets)), root, node, cs, level, 0)
      decreases node, 0, |cs|
    {
      var i := 0;
      while i < |cs|
        invariant 0 <= i <= |cs|
        invariant Children(config, State(tgt, commandTargets), root, node, cs, level, i)
               == Children(config, old(State(tgt, commandTargets)), root, node, cs, level, 0)
      {
        ChildBelow(node, cs, i);
        Work(PathJoin(root, cs[i].0), cs[i].1, level);
        i := i + 1;
      }
    }
  }

  /** `exec` up to running the commands. */
  method RunExec(tgt: seq<string>, filter: seq<string>, modified: bool, search: (string, string) -> bool,
                 cmds: seq<string>, repoRoot: string, root: ExecNode) returns (r: Result<seq<Entry>, ExecError>)
    ensures r == ExecTargets(tgt, filter, modified, search, cmds, repoRoot, root)
  {
    if NonEmpty(cmds) == [] {
      return Err(NoCommands);
    }
    var e := new Executor(Config(Filters(tgt, filter), modified, search), tgt);
    e.Work(repoRoot, root, 0);
    if e.tgt != [] {
      return Err(UnresolvedTargets(e.tgt));
    }
    return Ok(e.commandTargets);
  }
}
