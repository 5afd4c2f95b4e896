/** The imperative walk of `pull` (gitparent/gitp.py): `work` recurses
    over the tree, appends its effects to a trace in the order it performs
    them and reassigns the `nonlocal overlay_entries`. Each method is
    proved to do exactly what the specification functions of `PullSync`
    describe. */
module PullWalk {
  import opened Wrappers
  import opened Text
  import opened PyValue
  import opened ManifestModel
  import opened PullSync

  /** The state `work` shares across its recursive calls. */
  class Puller {
    const opts: Options
    var trace: seq<Event>
    var overlayEntries: seq<(string, Repo)>

    constructor(o: Options)
      ensures opts == o && trace == [] && overlayEntries == []
    {
      opts := o;
      trace := [];
      overlayEntries := [];
    }

    /** `work(src, dst, ...)` for the node `n`. */
    method Walk(n: Node, dst: string, entry: Repo, src: Option<string>) returns (err: Option<PullError>)
      requires WellFormed(n)
      modifies this
      ensures var w := Work(opts, n, dst, entry, src, old(overlayEntries));
              trace == old(trace) + w.events && overlayEntries == w.overlays && err == w.err
      decreases n, 3, 0
    {
      trace := trace + [SetParentEnv(EnvValue(opts, dst))];
      if HasKey(overlayEntries, dst) && !opts.local {
        return None;
      }
      err := VisitNode(n, dst, entry, src);
      AppendAssoc(old(trace), [SetParentEnv(EnvValue(opts, dst))], Visit(opts, n, dst, entry, src, old(overlayEntries)).events);
    }

    /** The part of `work` after the overlay check: own work unless
        skipped, then the children, then the hooks unless skipped. */
    method VisitNode(n: Node, dst: string, entry: Repo, src: Option<string>) returns (err: Option<PullError>)
      requires WellFormed(n)
      modifies this
      ensures var v := Visit(opts, n, dst, entry, src, old(overlayEntries));
              trace == old(trace) + v.events && overlayEntries == v.overlays && err == v.err
      decreases n, 2, 0
    {
      ghost var ov0 := overlayEntries;
      ghost var t0 := trace;
      ghost var ownEvents: seq<Event> := [];
      var skip := Skip(opts, entry.link, dst);
      if !skip {
        var own := OwnWork(opts, n, dst, entry, src);
        trace := trace + own.0;
        ownEvents := own.0;
        if own.1.Some? {
          return own.1;
        }
      }
      assert t0 + ownEvents == trace;
      if n.manifest.None? {
        return None;
      }
      var m := n.manifest.value;
      err := Recurse(n, m, dst, entry, src);
      ghost var kids := Descend(opts, n, m, dst, entry, src, ov0);
      AppendAssoc(t0, ownEvents, kids.events);
      if err.None? && !skip {
        var cmds := HookList(m, Chosen(opts, entry, n.at));
        RunHooks(cmds, dst);
        VisitOrder(opts, n, dst, entry, src, ov0);
        AppendAssoc(t0, ownEvents + kids.events, Hooks(cmds, dst));
      } else if !skip {
        assert ownEvents + kids.events + [] == ownEvents + kids.events;
      }
    }

    /** The hooks of a node, run one after the other at its path. */
    method RunHooks(cmds: seq<Value>, dst: string)
      modifies this
      ensures trace == old(trace) + Hooks(cmds, dst) && overlayEntries == old(overlayEntries)
    {
      var j := 0;
      while j < |cmds|
        invariant 0 <= j <= |cmds|
        invariant trace == old(trace) + Hooks(cmds[..j], dst) && overlayEntries == old(overlayEntries)
      {
        assert cmds[..j + 1][..j] == cmds[..j];
        AppendAssoc(old(trace), Hooks(cmds[..j], dst), [RunHook(cmds[j], dst)]);
        trace := trace + [RunHook(cmds[j], dst)];
        j := j + 1;
      }
      assert cmds[..j] == cmds;
    }

    /** Reading the node's manifest: the overlays are taken at the top
        repository only, and a link's children are not walked. */
    method Recurse(n: Node, m: ManifestData, dst: string, entry: Repo, src: Option<string>) returns (err: Option<PullError>)
      requires WellFormed(n) && n.manifest == Some(m)
      modifies this
      ensures var d := Descend(opts, n, m, dst, entry, src, old(overlayEntries));
              trace == old(trace) + d.events && overlayEntries == d.overlays && err == d.err
      decreases n, 1, 0
    {
      if dst == opts.topRoot {
        overlayEntries := Overlays(m);
      }
      if Truthy(entry.link) {
        return None;
      }
      err := WalkChildren(n, m, dst, src);
    }

    /** The loop over the manifest's children, in order, ending at the
        first exception. */
    method WalkChildren(n: Node, m: ManifestData, dst: string, src: Option<string>) returns (err: Option<PullError>)
      requires WellFormed(n) && n.manifest == Some(m)
      modifies this
      ensures var c := WorkChildren(opts, n, m, dst, src, old(overlayEntries), 0);
              trace == old(trace) + c.events && overlayEntries == c.overlays && err == c.err
      decreases n, 0, 1
    {
      ghost var ov0 := overlayEntries;
      ghost var t0 := trace;
      ghost var done: seq<Event> := [];
      ChildrenStart(opts, n, m, dst, src, ov0);
      var i := 0;
      while i < |n.children|
        invariant 0 <= i <= |n.children|
        invariant trace == t0 + done
        invariant ChildrenSoFar(opts, n, m, dst, src, ov0, done, overlayEntries, i)
        decreases |n.children| - i
      {
        ChildrenAdvance(opts, n, m, dst, src, ov0, done, overlayEntries, i);
        ghost var first := ChildWork(opts, n, m, dst, src, overlayEntries, i);
        err := WalkChild(n, m, dst, src, i);
        AppendAssoc(t0, done, first.events);
        done := done + first.events;
        if err.Some? {
          return;
        }
        i := i + 1;
      }
      ChildrenEnd(opts, n, m, dst, src, ov0, done, overlayEntries);
      return None;
    }

    /** The `i`-th child of the manifest: `work` at its path, with its
        entry and its source. */
    method WalkChild(n: Node, m: ManifestData, dst: string, src: Option<string>, i: nat) returns (err: Option<PullError>)
      requires WellFormed(n) && n.manifest == Some(m) && i < |n.children|
      modifies this
      ensures var w := ChildWork(opts, n, m, dst, src, old(overlayEntries), i);
              trace == old(trace) + w.events && overlayEntries == w.overlays && err == w.err
      decreases n, 0, 0
    {
      var key := m.order[i];
      err := Walk(n.children[i], PathJoin(dst, key), m.repos[key], ChildSrc(src, key));
    }
  }

  /** `pull` once its options are settled: the trace of effects and the
      exception, if any. */
  method Run(o: Options, src: Option<string>, t: TopFacts, root: Node) returns (events: seq<Event>, err: Option<PullError>)
    requires WellFormed(root)
    ensures (events, err) == RunWith(o, src, t, root)
  {
    if t.rootIsLink {
      return [], Some(RootIsSymlink);
    }
    if t.unaligned {
      return [], Some(UnalignedRepos);
    }
    var p := new Puller(o);
    err := p.Walk(root, t.topRoot, TopEntry(t), src);
    ghost var w := Work(o, root, t.topRoot, TopEntry(t), src, []);
    assert p.trace == w.events && p.overlayEntries == w.overlays && err == w.err;
    events := p.trace;
    if err.None? && !o.local {
      events := events + [ApplyOverlays(p.overlayEntries, if o.target.Some? then [o.target.value] else [])];
    }
  }

  /** `pull` from its command-line arguments, as written: the options are
      settled with `args.local[0]` first. */
  method Pull(a: PullArgs, t: TopFacts, root: Node) returns (events: seq<Event>, err: Option<PullError>)
    requires WellFormed(root)
    ensures (events, err) == PullRun(a, t, root)
  {
    var written := PullOptionsAsWritten(a, t);
    if written.None? {
      return [], Some(EmptyLocalValue);
    }
    events, err := Run(written.value, a.src, t, root);
  }
}
