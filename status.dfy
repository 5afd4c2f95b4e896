/** The tally and the closing report of `status` (gitparent/gitp.py): every
    visited repo adds one to the count of its state; the footer and the exit
    code are read off the counts. Which state each repo is in is an input:
    the sequence of states the walk visited. */
module Status {
  import opened Text
  import opened Alignment

  /** The symbol `format_key` shows for a state (its colour left out). */
  function Symbol(s: RepoState): string {
    match s
    case Clean => "✓"
    case Modified => "*"
    case Nonexistent => "-"
    case Unaligned => "!"
    case Unlinked => "#"
    case Overlayed => "^"
  }

  /** A state that puts a warning into the footer. */
  predicate Warns(s: RepoState) {
    s.Modified? || s.Unaligned? || s.Nonexistent? || s.Unlinked?
  }

  /** How many of the visited repos were in state `s`. */
  function Count(visited: seq<RepoState>, s: RepoState): nat
    decreases |visited|
  {
    if visited == [] then 0
    else Count(visited[..|visited| - 1], s) + (if visited[|visited| - 1] == s then 1 else 0)
  }

  lemma {:induction false} CountPositive(visited: seq<RepoState>, s: RepoState)
    ensures Count(visited, s) > 0 <==> s in visited
    decreases |visited|
  {
    if visited != [] {
      var p := visited[..|visited| - 1];
      CountPositive(p, s);
      assert visited == p + [visited[|visited| - 1]];
    }
  }

  /** `status_cnt` once every state has a key. */
  predicate Complete(cnt: map<RepoState, nat>) {
    forall s: RepoState :: s in cnt
  }

  /** `status_cnt = {x: 0 for x in format_key}`, then `status_cnt[status] += 1`
      at every repo the walk visits. */
  method Tally(visited: seq<RepoState>) returns (cnt: map<RepoState, nat>)
    ensures Complete(cnt)
    ensures forall s :: cnt[s] == Count(visited, s)
  {
    cnt := map[Clean := 0, Modified := 0, Nonexistent := 0, Unaligned := 0, Unlinked := 0, Overlayed := 0];
    assert Complete(cnt) by {
      forall s: RepoState ensures s in cnt {
        match s
        case Clean => case Modified => case Nonexistent =>
        case Unaligned => case Unlinked => case Overlayed =>
      }
    }
    var i := 0;
    while i < |visited|
      invariant 0 <= i <= |visited|
      invariant Complete(cnt)
      invariant forall s :: cnt[s] == Count(visited[..i], s)
    {
      assert visited[..i + 1][..i] == visited[..i];
      cnt := cnt[visited[i] := cnt[visited[i]] + 1];
      i := i + 1;
    }
    assert visited[..i] == visited;
  }

  /** One footer line, present when its state was seen. */
  function Note(cnt: map<RepoState, nat>, s: RepoState, text: string): string
    requires Complete(cnt)
  {
    if cnt[s] > 0 then "\n{" + Symbol(s) + "} " + text else ""
  }

  /** The text of each footer line. */
  datatype Texts = Texts(modified: string, unaligned: string, nonexistent: string, unlinked: string, overlayed: string)

  const Messages := Texts(
    "You have repo(s) with local, unpushed changes",
    "You have repo(s) that are out of sync with .gitp_manifest (run `gitp sync` to automatically update .gitp_manifest recursively)",
    "You have repo(s) that are not cloned locally (run `gitp sync` to clone them)",
    "You have repo(s) that are copied locally from a link (run `gitp pull` to relink them)",
    "You have repo(s) that are locally overlayed")

  const InSyncText := "\nAll child repos in sync!"

  /** `warn_footer`, with the lines' texts `t`. */
  function WarnLines(cnt: map<RepoState, nat>, t: Texts): string
    requires Complete(cnt)
  {
    Note(cnt, Modified, t.modified) + Note(cnt, Unaligned, t.unaligned)
      + Note(cnt, Nonexistent, t.nonexistent) + Note(cnt, Unlinked, t.unlinked)
  }

  /** `footer + warn_footer`, with the lines' texts `t`: the overlay line,
      then "All child repos in sync!" when `warn_footer` is empty and
      `warn_footer` otherwise. */
  function ReportWith(cnt: map<RepoState, nat>, t: Texts): string
    requires Complete(cnt)
  {
    Note(cnt, Overlayed, t.overlayed) + (if WarnLines(cnt, t) == "" then InSyncText else WarnLines(cnt, t))
  }

  /** The text `status` prints last. */
  function Report(cnt: map<RepoState, nat>): string
    requires Complete(cnt)
  {
    ReportWith(cnt, Messages)
  }

  /** Some warning state has a positive count: `warn_footer` gets a line. */
  predicate Warned(cnt: map<RepoState, nat>)
    requires Complete(cnt)
  {
    cnt[Modified] > 0 || cnt[Unaligned] > 0 || cnt[Nonexistent] > 0 || cnt[Unlinked] > 0
  }

  /** What `status` returns: 1 after a git fallback, otherwise 1 exactly when
      `warn_footer` is not empty. */
  function ExitCode(fallback: bool, cnt: map<RepoState, nat>): (code: int)
    requires Complete(cnt)
    ensures fallback ==> code == 1
    ensures code == 0 || code == 1
  {
    if fallback then 1
    else if Warned(cnt) then 1
    else 0
  }

  lemma NoteEmpty(cnt: map<RepoState, nat>, s: RepoState, text: string)
    requires Complete(cnt)
    ensures Note(cnt, s, text) == "" <==> cnt[s] == 0
  {
    if cnt[s] > 0 { assert Note(cnt, s, text)[0] == '\n'; }
  }

  /** Whatever the lines' texts, `warn_footer` is empty exactly when no
      warning state was counted. */
  lemma WarnLinesEmpty(cnt: map<RepoState, nat>, t: Texts)
    requires Complete(cnt)
    ensures WarnLines(cnt, t) == "" <==> !Warned(cnt)
  {
    NoteEmpty(cnt, Modified, t.modified);
    NoteEmpty(cnt, Unaligned, t.unaligned);
    NoteEmpty(cnt, Nonexistent, t.nonexistent);
    NoteEmpty(cnt, Unlinked, t.unlinked);
  }

  /** Some visited repo is in state `s` exactly when its count is positive. */
  lemma SeenOfCount(visited: seq<RepoState>, cnt: map<RepoState, nat>, s: RepoState)
    requires Complete(cnt) && forall s :: cnt[s] == Count(visited, s)
    ensures cnt[s] > 0 <==> exists i :: 0 <= i < |visited| && visited[i] == s
  {
    CountPositive(visited, s);
  }

  /** Some visited repo warns exactly when a warning state was counted. */
  lemma WarnedOfVisits(visited: seq<RepoState>, cnt: map<RepoState, nat>)
    requires Complete(cnt) && forall s :: cnt[s] == Count(visited, s)
    ensures Warned(cnt) <==> exists i :: 0 <= i < |visited| && Warns(visited[i])
  {
    if exists i :: 0 <= i < |visited| && Warns(visited[i]) {
      var i :| 0 <= i < |visited| && Warns(visited[i]);
      SeenOfCount(visited, cnt, visited[i]);
    }
    if Warned(cnt) {
      var s :| Warns(s) && cnt[s] != 0 by {
        if cnt[Modified] > 0 { assert Warns(Modified); }
        else if cnt[Unaligned] > 0 { assert Warns(Unaligned); }
        else if cnt[Nonexistent] > 0 { assert Warns(Nonexistent); }
        else { assert Warns(Unlinked); }
      }
      SeenOfCount(visited, cnt, s);
    }
  }

  /** Without a fallback, `status` returns 1 exactly when some visited repo
      is MODIFIED, UNALIGNED, NONEXISTENT or UNLINKED. */
  lemma ExitCodeOfVisits(visited: seq<RepoState>, cnt: map<RepoState, nat>)
    requires Complete(cnt) && forall s :: cnt[s] == Count(visited, s)
    ensures ExitCode(false, cnt) == 1 <==> exists i :: 0 <= i < |visited| && Warns(visited[i])
  {
    WarnedOfVisits(visited, cnt);
  }

  /** The report is the overlay line, present exactly when some visited repo
      is overlayed, then "All child repos in sync!" when no visited repo
      warns, and the warnings otherwise. */
  lemma ReportOfVisits(visited: seq<RepoState>, cnt: map<RepoState, nat>, t: Texts)
    requires Complete(cnt) && forall s :: cnt[s] == Count(visited, s)
    ensures (forall i :: 0 <= i < |visited| ==> !Warns(visited[i]))
      ==> ReportWith(cnt, t) == Note(cnt, Overlayed, t.overlayed) + InSyncText
    ensures (exists i :: 0 <= i < |visited| && Warns(visited[i]))
      ==> WarnLines(cnt, t) != "" && ReportWith(cnt, t) == Note(cnt, Overlayed, t.overlayed) + WarnLines(cnt, t)
    ensures Note(cnt, Overlayed, t.overlayed) != "" <==> Overlayed in visited
  {
    WarnedOfVisits(visited, cnt);
    WarnLinesEmpty(cnt, t);
    NoteEmpty(cnt, Overlayed, t.overlayed);
    CountPositive(visited, Overlayed);
  }
}
