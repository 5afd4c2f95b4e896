/** What `stash` (gitparent/gitp.py) decides before it touches any
    repository: how its arguments are read, which lines of `.gitp_stashes`
    a read operation works on (after checking the whole file), and which
    id a new stash gets. */
module StashSelect {
  import opened Wrappers
  import opened Text
  import opened Stash

  /** The stash a command names: none, a name given on the command line,
      or the one-element list `[1]` the `branch` form assigns. */
  datatype StashTarget = NoTarget | Named(name: string) | ListOne

  /** The operation `stash` carries out, or the decision to hand the whole
      command to git. */
  datatype StashRequest =
    | GitFallback
    | Request(op: string, opts: seq<string>, target: StashTarget, branchName: string)

  /** Exceptions `stash` raises before it walks the tree. */
  datatype StashError =
    | PatchRefused
    | MalformedLine(lineNo: nat, text: string)
    | DuplicateStash(msg: string)
    | UnknownStash(target: StashTarget)

  /** The options: every argument starting with a dash. */
  function Dashed(us: seq<string>): (r: seq<string>)
    ensures forall x :: x in r <==> x in us && StartsWith(x, "-")
  {
    if us == [] then []
    else (if StartsWith(us[0], "-") then [us[0]] else []) + Dashed(us[1..])
  }

  /** The revisions: every other argument, stripped. */
  function Revs(us: seq<string>): seq<string> {
    if us == [] then []
    else (if StartsWith(us[0], "-") then [] else [Strip(us[0])]) + Revs(us[1..])
  }

  /** The argument handling at the head of `stash`. The source, for the
      `branch` form with a branch name and a stash, sets the target to the
      list `[1]`; `intended` takes the second revision instead, as
      `git stash branch <branch> <stash>` reads it. */
  function ReadStashArgs(us: seq<string>, intended: bool): Result<StashRequest, StashError> {
    if "--patch" in us || "-p" in us then Err(PatchRefused)
    else
      var op := if us == [] then "push" else us[0];
      var opts := Dashed(us);
      if |us| <= 1 then Ok(Request(op, opts, NoTarget, ""))
      else
        var revs := Revs(us[1..]);
        if revs == [] then Ok(Request(op, opts, NoTarget, ""))
        else if op == "branch" && |revs| == 2 then
          Ok(Request(op, opts, if intended then Named(revs[1]) else ListOne, revs[0]))
        else if |revs| > 1 then Ok(GitFallback)
        else Ok(Request(op, opts, Named(revs[0]), ""))
  }

  /** The arguments as the source reads them. */
  function ParseStashArgs(us: seq<string>): Result<StashRequest, StashError> {
    ReadStashArgs(us, false)
  }

  /** The arguments as `git stash branch` means them. */
  function ParseStashArgsIntended(us: seq<string>): Result<StashRequest, StashError> {
    ReadStashArgs(us, true)
  }

  /** The argument handling: a patch option is refused, the operation
      defaults to `push`, and the command goes to git exactly when several
      revisions are given outside the two-revision `branch` form. */
  lemma ParseStashArgsCases(us: seq<string>)
    ensures ParseStashArgs(us) == Err(PatchRefused) <==> "--patch" in us || "-p" in us
    ensures ParseStashArgs(us).Ok? && ParseStashArgs(us).value.Request? ==>
      ParseStashArgs(us).value.op == (if us == [] then "push" else us[0])
      && ParseStashArgs(us).value.opts == Dashed(us)
    ensures ParseStashArgs(us) == Ok(GitFallback) <==>
      !("--patch" in us || "-p" in us) && |us| > 1 && |Revs(us[1..])| > 1
      && !(us[0] == "branch" && |Revs(us[1..])| == 2)
    ensures ParseStashArgs(us).Ok? && ParseStashArgs(us).value.Request? && ParseStashArgs(us).value.target.Named? ==>
      |us| > 1 && ParseStashArgs(us).value.target.name == Revs(us[1..])[0]
  {
  }

  /** Whether the target is set (`if tgt_stash`): an empty name is not. */
  predicate Given(t: StashTarget) {
    match t
    case NoTarget => false
    case Named(s) => s != []
    case ListOne => true
  }

  /** A named target picks an entry by its message or by its reference. */
  predicate Selects(t: StashTarget, e: StashEntry) {
    t.Named? && (t.name == e.msg || t.name == "stash@{" + e.pos + "}")
  }

  /** What the validation loop has gathered: the entries to operate on, the
      ids seen and whether the target was found. */
  datatype Scan = Scan(selected: seq<StashEntry>, reserved: set<string>, matched: bool)

  /** `is_gitp_stash(line)`, the parser the validation loop applies to
      each line. The loop below is stated for any parser of lines. */
  function Parsed(line: string): Option<StashEntry> {
    IsGitpStash(line, None)
  }

  type Parser = string -> Option<StashEntry>

  /** A parser whose messages are never empty, so that an empty target
      name selects nothing. */
  ghost predicate NamesMessages(parse: Parser) {
    forall l :: parse(l).Some? ==> parse(l).value.msg != []
  }

  lemma ParsedNamesMessages()
    ensures NamesMessages(Parsed)
  {
    forall l | Parsed(l).Some? ensures Parsed(l).value.msg != [] {
      assert StartsWith(Parsed(l).value.msg, "__gitp");
    }
  }

  /** One line of the file, numbered from 1. */
  function Step(parse: Parser, acc: Scan, lineNo: nat, line: string, op: string, t: StashTarget): Result<Scan, StashError> {
    match parse(line)
    case None => Err(MalformedLine(lineNo, Strip(line)))
    case Some(e) =>
      if e.id in acc.reserved then Err(DuplicateStash(e.msg))
      else
        var sel := if op == "clear" then acc.selected + [e] else acc.selected;
        var ids := acc.reserved + {e.id};
        if !Given(t) && sel == [] then Ok(Scan(sel + [e], ids, acc.matched))
        else if Selects(t, e) then Ok(Scan(sel + [e], ids, true))
        else Ok(Scan(sel, ids, acc.matched))
  }

  /** The validation loop over the first `|lines|` lines. */
  function ScanLines(parse: Parser, lines: seq<string>, op: string, t: StashTarget): Result<Scan, StashError>
    decreases |lines|
  {
    if lines == [] then Ok(Scan([], {}, !Given(t)))
    else
      match ScanLines(parse, lines[..|lines| - 1], op, t)
      case Err(e) => Err(e)
      case Ok(acc) => Step(parse, acc, |lines|, lines[|lines| - 1], op, t)
  }

  /** The loop followed by the check that the target was found. */
  function Validate(parse: Parser, lines: seq<string>, op: string, t: StashTarget): Result<Scan, StashError> {
    match ScanLines(parse, lines, op, t)
    case Err(e) => Err(e)
    case Ok(s) => if s.matched then Ok(s) else Err(UnknownStash(t))
  }

  predicate AllParse(parse: Parser, lines: seq<string>) {
    forall i :: 0 <= i < |lines| ==> parse(lines[i]).Some?
  }

  predicate DistinctIds(parse: Parser, lines: seq<string>)
    requires AllParse(parse, lines)
  {
    forall i, j :: 0 <= i < j < |lines| ==> parse(lines[i]).value.id != parse(lines[j]).value.id
  }

  /** The ids of the lines that parse. */
  function Ids(parse: Parser, lines: seq<string>): set<string> {
    set i | 0 <= i < |lines| && parse(lines[i]).Some? :: parse(lines[i]).value.id
  }

  /** The entries of a file whose lines all parse. */
  function Entries(parse: Parser, lines: seq<string>): (r: seq<StashEntry>)
    requires AllParse(parse, lines)
  {
    seq(|lines|, i requires 0 <= i < |lines| => parse(lines[i]).value)
  }

  lemma IdsAppend(parse: Parser, p: seq<string>, l: string, e: StashEntry)
    requires parse(l) == Some(e)
    ensures Ids(parse, p + [l]) == Ids(parse, p) + {e.id}
  {
    var q := p + [l];
    forall x | x in Ids(parse, q) ensures x in Ids(parse, p) + {e.id} {
      var i :| 0 <= i < |q| && parse(q[i]).Some? && parse(q[i]).value.id == x;
      if i < |p| { assert q[i] == p[i]; }
    }
    forall x | x in Ids(parse, p) ensures x in Ids(parse, q) {
      var i :| 0 <= i < |p| && parse(p[i]).Some? && parse(p[i]).value.id == x;
      assert q[i] == p[i];
    }
    assert q[|p|] == l;
  }

  /** One more line keeps the file well formed exactly when it parses and
      its id is new. */
  lemma WellFormedAppend(parse: Parser, p: seq<string>, l: string)
    ensures AllParse(parse, p + [l]) && DistinctIds(parse, p + [l]) <==>
      AllParse(parse, p) && DistinctIds(parse, p) && parse(l).Some? && parse(l).value.id !in Ids(parse, p)
  {
    var q := p + [l];
    assert q[..|p|] == p && q[|p|] == l;
    if AllParse(parse, q) && DistinctIds(parse, q) {
      assert AllParse(parse, p) by {
        forall i | 0 <= i < |p| ensures parse(p[i]).Some? { assert q[i] == p[i]; }
      }
      forall i, j | 0 <= i < j < |p| ensures parse(p[i]).value.id != parse(p[j]).value.id {
        assert q[i] == p[i] && q[j] == p[j];
      }
      forall i | 0 <= i < |p| ensures parse(p[i]).value.id != parse(l).value.id {
        assert q[i] == p[i];
      }
    }
    if AllParse(parse, p) && DistinctIds(parse, p) && parse(l).Some? && parse(l).value.id !in Ids(parse, p) {
      forall i | 0 <= i < |q| ensures parse(q[i]).Some? {
        if i < |p| { assert q[i] == p[i]; }
      }
      forall i, j | 0 <= i < j < |q| ensures parse(q[i]).value.id != parse(q[j]).value.id {
        assert q[i] == p[i];
        if j < |p| { assert q[j] == p[j]; }
        else { assert parse(p[i]).value.id in Ids(parse, p); }
      }
    }
  }

  /** The loop completes exactly when every line is a gitp stash line and
      no id appears twice; it then holds the ids of all lines. */
  lemma {:induction false} ScanOk(parse: Parser, lines: seq<string>, op: string, t: StashTarget)
    ensures ScanLines(parse, lines, op, t).Ok? <==> AllParse(parse, lines) && DistinctIds(parse, lines)
    ensures ScanLines(parse, lines, op, t).Ok? ==> ScanLines(parse, lines, op, t).value.reserved == Ids(parse, lines)
    decreases |lines|
  {
    if lines != [] {
      var p := lines[..|lines| - 1];
      var l := lines[|lines| - 1];
      assert lines == p + [l];
      ScanOk(parse, p, op, t);
      WellFormedAppend(parse, p, l);
      if parse(l).Some? {
        IdsAppend(parse, p, l, parse(l).value);
      }
    }
  }

  /** A default read operation works on the top entry alone. */
  lemma {:induction false} DefaultTakesTop(parse: Parser, lines: seq<string>, op: string, t: StashTarget)
    requires NamesMessages(parse) && !Given(t) && op != "clear" && ScanLines(parse, lines, op, t).Ok?
    ensures AllParse(parse, lines)
    ensures ScanLines(parse, lines, op, t).value.selected == if lines == [] then [] else [parse(lines[0]).value]
    ensures ScanLines(parse, lines, op, t).value.matched
    decreases |lines|
  {
    ScanOk(parse, lines, op, t);
    if lines != [] {
      var p := lines[..|lines| - 1];
      DefaultTakesTop(parse, p, op, t);
      if p != [] { assert p[0] == lines[0]; }
    }
  }

  /** A default read operation fails only on a malformed file. */
  lemma DefaultValidates(parse: Parser, lines: seq<string>, op: string, t: StashTarget)
    requires NamesMessages(parse) && !Given(t) && op != "clear" && lines != []
    requires AllParse(parse, lines) && DistinctIds(parse, lines)
    ensures Validate(parse, lines, op, t) == Ok(Scan([parse(lines[0]).value], Ids(parse, lines), true))
  {
    ScanOk(parse, lines, op, t);
    DefaultTakesTop(parse, lines, op, t);
  }

  /** `clear` without a target works on every entry, top first. */
  lemma {:induction false} ClearTakesAll(parse: Parser, lines: seq<string>, t: StashTarget)
    requires NamesMessages(parse) && !Given(t) && ScanLines(parse, lines, "clear", t).Ok?
    ensures AllParse(parse, lines) && ScanLines(parse, lines, "clear", t).value.selected == Entries(parse, lines)
    decreases |lines|
  {
    ScanOk(parse, lines, "clear", t);
    if lines != [] {
      var p := lines[..|lines| - 1];
      ClearTakesAll(parse, p, t);
      assert Entries(parse, lines) == Entries(parse, p) + [parse(lines[|lines| - 1]).value];
    }
  }

  /** The entries a named target picks, in file order. */
  function Matching(es: seq<StashEntry>, t: StashTarget): (r: seq<StashEntry>)
    ensures forall e :: e in r <==> e in es && Selects(t, e)
  {
    if es == [] then []
    else Matching(es[..|es| - 1], t) + (if Selects(t, es[|es| - 1]) then [es[|es| - 1]] else [])
  }

  /** Away from `clear`, a named target picks exactly the entries it
      selects, and is found exactly when there is one. */
  lemma {:induction false} NamedTakesMatching(parse: Parser, lines: seq<string>, op: string, t: StashTarget)
    requires Given(t) && t.Named? && op != "clear" && ScanLines(parse, lines, op, t).Ok?
    ensures AllParse(parse, lines)
    ensures ScanLines(parse, lines, op, t).value.selected == Matching(Entries(parse, lines), t)
    ensures ScanLines(parse, lines, op, t).value.matched <==> Matching(Entries(parse, lines), t) != []
    decreases |lines|
  {
    ScanOk(parse, lines, op, t);
    if lines != [] {
      var p := lines[..|lines| - 1];
      NamedTakesMatching(parse, p, op, t);
      assert Entries(parse, lines)[..|lines| - 1] == Entries(parse, p);
    }
  }

  /** With a well-formed file, a named target fails exactly when no entry
      carries that message or reference. */
  lemma NamedValidates(parse: Parser, lines: seq<string>, op: string, t: StashTarget)
    requires Given(t) && t.Named? && op != "clear"
    requires AllParse(parse, lines) && DistinctIds(parse, lines)
    ensures Validate(parse, lines, op, t) == if Matching(Entries(parse, lines), t) == []
                                     then Err(UnknownStash(t))
                                     else Ok(Scan(Matching(Entries(parse, lines), t), Ids(parse, lines), true))
  {
    ScanOk(parse, lines, op, t);
    NamedTakesMatching(parse, lines, op, t);
  }

  /** The list target is never found. */
  lemma {:induction false} ListOneUnmatched(parse: Parser, lines: seq<string>, op: string)
    ensures ScanLines(parse, lines, op, ListOne).Ok? ==> !ScanLines(parse, lines, op, ListOne).value.matched
    decreases |lines|
  {
    if lines != [] {
      ListOneUnmatched(parse, lines[..|lines| - 1], op);
    }
  }

  /** The `branch` form with two revisions (a branch name and a stash),
      read as written and as intended. */
  lemma ArgsOfBranchForm(us: seq<string>)
    requires |us| > 1 && us[0] == "branch" && |Revs(us[1..])| == 2
    requires "--patch" !in us && "-p" !in us
    ensures ParseStashArgs(us) == Ok(Request("branch", Dashed(us), ListOne, Revs(us[1..])[0]))
    ensures ParseStashArgsIntended(us) == Ok(Request("branch", Dashed(us), Named(Revs(us[1..])[1]), Revs(us[1..])[0]))
  {
  }

  /** As written, `stash branch <name> <stash>` fails on every file: a
      well-formed one reports the stash `[1]` as unknown. */
  lemma BranchStashLost(parse: Parser, lines: seq<string>)
    ensures Validate(parse, lines, "branch", ListOne).Err?
    ensures AllParse(parse, lines) && DistinctIds(parse, lines) ==>
      Validate(parse, lines, "branch", ListOne) == Err(UnknownStash(ListOne))
  {
    ListOneUnmatched(parse, lines, "branch");
    ScanOk(parse, lines, "branch", ListOne);
  }

  /** With the second revision as the target, the same command on a
      well-formed file finds the stash whose message it names. */
  lemma BranchStashFound(parse: Parser, lines: seq<string>, name: string, k: nat)
    requires NamesMessages(parse) && AllParse(parse, lines) && DistinctIds(parse, lines)
    requires k < |lines| && name == parse(lines[k]).value.msg
    ensures Validate(parse, lines, "branch", Named(name)).Ok?
    ensures parse(lines[k]).value in Validate(parse, lines, "branch", Named(name)).value.selected
  {
    var es := Entries(parse, lines);
    assert es[k] in es;
    NamedValidates(parse, lines, "branch", Named(name));
  }

  /** One more line of the loop. */
  lemma ScanNext(parse: Parser, lines: seq<string>, i: nat, op: string, t: StashTarget)
    requires i < |lines|
    ensures ScanLines(parse, lines[..i + 1], op, t) == match ScanLines(parse, lines[..i], op, t)
      case Err(e) => Err(e)
      case Ok(acc) => Step(parse, acc, i + 1, lines[i], op, t)
  {
    assert lines[..i + 1][..i] == lines[..i];
  }

  /** The first exception ends the loop. */
  lemma {:induction false} ScanErrStops(parse: Parser, lines: seq<string>, i: nat, op: string, t: StashTarget)
    requires i <= |lines| && ScanLines(parse, lines[..i], op, t).Err?
    ensures ScanLines(parse, lines, op, t) == ScanLines(parse, lines[..i], op, t)
    decreases |lines| - i
  {
    if i < |lines| {
      ScanNext(parse, lines, i, op, t);
      ScanErrStops(parse, lines, i + 1, op, t);
    } else {
      assert lines[..i] == lines;
    }
  }

  /** The validation loop of `stash`. */
  method ValidateStashes(lines: seq<string>, op: string, t: StashTarget) returns (r: Result<Scan, StashError>)
    ensures r == Validate(Parsed, lines, op, t)
  {
    var selected: seq<StashEntry> := [];
    var reserved: set<string> := {};
    var matched := !Given(t);
    var i := 0;
    while i < |lines|
      invariant 0 <= i <= |lines|
      invariant ScanLines(Parsed, lines[..i], op, t) == Ok(Scan(selected, reserved, matched))
    {
      ScanNext(Parsed, lines, i, op, t);
      var entry := IsGitpStash(lines[i], None);
      assert entry == Parsed(lines[i]);
      if entry.None? {
        ScanErrStops(Parsed, lines, i + 1, op, t);
        return Err(MalformedLine(i + 1, Strip(lines[i])));
      }
      var e := entry.value;
      if e.id in reserved {
        ScanErrStops(Parsed, lines, i + 1, op, t);
        return Err(DuplicateStash(e.msg));
      }
      reserved := reserved + {e.id};
      if op == "clear" {
        selected := selected + [e];
      }
      if !Given(t) && selected == [] {
        selected := selected + [e];
      } else if Selects(t, e) {
        matched := true;
        selected := selected + [e];
      }
      i := i + 1;
    }
    assert lines[..i] == lines;
    if !matched {
      return Err(UnknownStash(t));
    }
    return Ok(Scan(selected, reserved, matched));
  }

  /** The `i`-th name `push` tries: the timestamp, then the timestamp
      followed by 0, 1, 2, ... */
  function Candidate(name: string, i: nat): string {
    if i == 0 then name else name + Decimal(i - 1)
  }

  lemma CandidateInjective(name: string, i: nat, j: nat)
    requires Candidate(name, i) == Candidate(name, j)
    ensures i == j
  {
    if i > 0 && j > 0 {
      var a := Candidate(name, i);
      assert Decimal(i - 1) == a[|name|..] == Decimal(j - 1);
      DecimalInjective(i - 1, j - 1);
    }
  }

  /** The candidates tried before the `n`-th. */
  ghost function Tried(name: string, n: nat): set<string> {
    set k | 0 <= k < n :: Candidate(name, k)
  }

  lemma TriedStep(name: string, n: nat)
    ensures Candidate(name, n) !in Tried(name, n)
    ensures Tried(name, n + 1) == Tried(name, n) + {Candidate(name, n)}
  {
    if Candidate(name, n) in Tried(name, n) {
      var k :| 0 <= k < n && Candidate(name, k) == Candidate(name, n);
      CandidateInjective(name, k, n);
    }
  }

  /** The id loop of `push`: the first candidate no existing stash holds. */
  method FreshId(name: string, reserved: set<string>) returns (id: string, n: nat)
    ensures id == Candidate(name, n) && id !in reserved
    ensures forall k :: 0 <= k < n ==> Candidate(name, k) in reserved
  {
    id := name;
    n := 0;
    while id in reserved
      invariant id == Candidate(name, n)
      invariant Tried(name, n) <= reserved
      decreases |reserved - Tried(name, n)|
    {
      TriedStep(name, n);
      assert reserved - Tried(name, n + 1) == (reserved - Tried(name, n)) - {id};
      id := name + Decimal(n);
      n := n + 1;
    }
    forall k | 0 <= k < n ensures Candidate(name, k) in reserved {
      assert Candidate(name, k) in Tried(name, n);
    }
  }
}
