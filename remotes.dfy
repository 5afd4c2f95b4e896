/** `get_remotes` (gitparent/gitp.py): the output of `git remote -v`, one
    `<name> <url> (<kind>)` line per remote and kind, read into a dict from
    remote name to a dict from kind (`fetch`, `push`) to url. The output is
    an input; a failing `git` is not part of this model. */
module Remotes {
  import opened Wrappers
  import opened Text
  import opened PyValue

  /** The urls of one remote, by kind. */
  type Urls = seq<(string, Option<string>)>

  /** The remotes, by name, in the order of their first line. */
  type RemoteMap = seq<(string, Urls)>

  /** The exception a line that does not split into three fields raises. */
  datatype RemoteError = UnexpectedFormat

  /** What a remote starts with before its lines are read. */
  const NoUrls: Urls := [("fetch", None), ("push", None)]

  /** `type[1:-1]`: the kind without its parentheses. */
  function InnerKey(ty: string): string {
    if |ty| >= 2 then ty[1..|ty| - 1] else []
  }

  /** One line of the loop: a blank line is skipped, any other must split
      into name, url and kind. */
  function AddRemoteLine(ans: RemoteMap, line: string): Result<RemoteMap, RemoteError> {
    if Strip(line) == [] then Ok(ans)
    else
      var fs := Fields(line);
      if |fs| != 3 then Err(UnexpectedFormat)
      else
        Ok(DictSet(ans, fs[0], DictSet(UrlsOf(ans, fs[0]), InnerKey(fs[2]), Some(fs[1]))))
  }

  /** `ans.setdefault(name, {'fetch': None, 'push': None})` read back. */
  function UrlsOf(ans: RemoteMap, name: string): Urls {
    match Lookup(ans, name)
    case Some(u) => u
    case None => NoUrls
  }

  /** The loop over the first `|lines|` lines. */
  function ParseLines(lines: seq<string>): Result<RemoteMap, RemoteError>
    decreases |lines|
  {
    if lines == [] then Ok([])
    else
      match ParseLines(lines[..|lines| - 1])
      case Err(e) => Err(e)
      case Ok(ans) => AddRemoteLine(ans, lines[|lines| - 1])
  }

  function ParseRemotes(out: string): Result<RemoteMap, RemoteError> {
    ParseLines(SplitOn(out, '\n'))
  }

  lemma ParseNext(lines: seq<string>, i: nat)
    requires i < |lines|
    ensures ParseLines(lines[..i + 1]) == match ParseLines(lines[..i])
      case Err(e) => Err(e)
      case Ok(ans) => AddRemoteLine(ans, lines[i])
  {
    assert lines[..i + 1][..i] == lines[..i];
  }

  lemma {:induction false} ParseErrStops(lines: seq<string>, i: nat)
    requires i <= |lines| && ParseLines(lines[..i]).Err?
    ensures ParseLines(lines) == ParseLines(lines[..i])
    decreases |lines| - i
  {
    if i < |lines| {
      ParseNext(lines, i);
      ParseErrStops(lines, i + 1);
    } else {
      assert lines[..i] == lines;
    }
  }

  /** `ans.setdefault(name, ...)[kind] = url` is the update the line makes. */
  lemma SetDefault(ans: RemoteMap, name: string, kind: string, url: string)
    ensures var d := if HasKey(ans, name) then ans else DictSet(ans, name, NoUrls);
      && Lookup(d, name).Some?
      && DictSet(d, name, DictSet(Lookup(d, name).value, kind, Some(url)))
         == DictSet(ans, name, DictSet(UrlsOf(ans, name), kind, Some(url)))
  {
    DictSetLookup(ans, name, NoUrls, name);
    if !HasKey(ans, name) {
      DictSetTwice(ans, name, NoUrls, DictSet(NoUrls, kind, Some(url)));
    }
  }

  /** `get_remotes(root)` given the output of `git remote -v`. */
  method GetRemotes(out: string) returns (r: Result<RemoteMap, RemoteError>)
    ensures r == ParseRemotes(out)
  {
    var lines := SplitOn(out, '\n');
    var ans: RemoteMap := [];
    var i := 0;
    while i < |lines|
      invariant 0 <= i <= |lines|
      invariant ParseLines(lines[..i]) == Ok(ans)
    {
      ParseNext(lines, i);
      var line := lines[i];
      if Strip(line) != [] {
        var fs := Fields(line);
        if |fs| != 3 {
          ParseErrStops(lines, i + 1);
          return Err(UnexpectedFormat);
        }
        var name, url, ty := fs[0], fs[1], fs[2];
        SetDefault(ans, name, InnerKey(ty), url);
        if !HasKey(ans, name) {
          ans := DictSet(ans, name, NoUrls);
        }
        var urls := Lookup(ans, name).value;
        ans := DictSet(ans, name, DictSet(urls, InnerKey(ty), Some(url)));
      }
      i := i + 1;
    }
    assert lines[..i] == lines;
    return Ok(ans);
  }

  /** A line the loop accepts. */
  predicate LineOk(line: string) {
    Strip(line) == [] || |Fields(line)| == 3
  }

  /** Every one of the lines satisfies `ok`, checked last line first. */
  predicate AllLines(ok: string -> bool, lines: seq<string>)
    decreases |lines|
  {
    lines == [] || (AllLines(ok, lines[..|lines| - 1]) && ok(lines[|lines| - 1]))
  }

  lemma {:induction false} AllLinesEach(ok: string -> bool, lines: seq<string>)
    ensures AllLines(ok, lines) <==> forall k :: 0 <= k < |lines| ==> ok(lines[k])
    decreases |lines|
  {
    if lines != [] {
      var p := lines[..|lines| - 1];
      AllLinesEach(ok, p);
      if forall k :: 0 <= k < |lines| ==> ok(lines[k]) {
        forall k | 0 <= k < |p| ensures ok(p[k]) { assert p[k] == lines[k]; }
      }
      if AllLines(ok, lines) {
        forall k | 0 <= k < |lines| ensures ok(lines[k]) {
          if k < |p| { assert lines[k] == p[k]; }
        }
      }
    }
  }

  lemma {:induction false} ParseLinesAll(lines: seq<string>)
    ensures ParseLines(lines).Ok? <==> AllLines(LineOk, lines)
    decreases |lines|
  {
    if lines != [] {
      var p := lines[..|lines| - 1];
      ParseLinesAll(p);
      if ParseLines(p).Ok? {
        AddLineOk(ParseLines(p).value, lines[|lines| - 1]);
      }
    }
  }

  /** The output is read without an exception exactly when every line is
      blank or splits into three fields. */
  lemma ParseLinesOk(lines: seq<string>)
    ensures ParseLines(lines).Ok? <==> forall k :: 0 <= k < |lines| ==> LineOk(lines[k])
  {
    ParseLinesAll(lines);
    AllLinesEach(LineOk, lines);
  }

  /** A line is read without an exception exactly when the loop accepts it. */
  lemma AddLineOk(ans: RemoteMap, line: string)
    ensures AddRemoteLine(ans, line).Ok? <==> LineOk(line)
  {
  }

  /** A remote as `git remote -v` lists it. */
  datatype Remote = Remote(name: string, fetch: string, push: string)

  predicate ValidRemotes(rs: seq<Remote>) {
    && (forall i :: 0 <= i < |rs| ==> IsWord(rs[i].name) && IsWord(rs[i].fetch) && IsWord(rs[i].push))
    && (forall i, j :: 0 <= i < j < |rs| ==> rs[i].name != rs[j].name)
  }

  /** `(<kind>)` */
  function Paren(kind: string): string {
    "(" + kind + ")"
  }

  /** `<name>\t<url> (<kind>)` */
  function RemoteLine(name: string, url: string, kind: string): string {
    name + ("\t" + (url + (" " + Paren(kind))))
  }

  /** The lines listing the remotes, fetch before push. */
  function Listed(rs: seq<Remote>): seq<string> {
    ListedAs(rs, "fetch", "push")
  }

  /** The listing with the two kinds named `fk` and `pk`. */
  function ListedAs(rs: seq<Remote>, fk: string, pk: string): seq<string> {
    if rs == [] then []
    else
      var r := rs[|rs| - 1];
      ListedAs(rs[..|rs| - 1], fk, pk) + [RemoteLine(r.name, r.fetch, fk), RemoteLine(r.name, r.push, pk)]
  }

  /** The output of `git remote -v`: the lines, each ending in a newline. */
  function ListOutput(rs: seq<Remote>): string {
    JoinWith(Listed(rs) + [""], "\n")
  }

  /** The dict `get_remotes` is meant to build from that output. */
  function Expected(rs: seq<Remote>): RemoteMap {
    if rs == [] then []
    else
      var r := rs[|rs| - 1];
      Expected(rs[..|rs| - 1]) + [(r.name, [("fetch", Some(r.fetch)), ("push", Some(r.push))])]
  }

  /** The same dict, each remote's urls set into `NoUrls` under `fk` then `pk`. */
  function ExpectedAs(rs: seq<Remote>, fk: string, pk: string): RemoteMap {
    if rs == [] then []
    else
      var r := rs[|rs| - 1];
      ExpectedAs(rs[..|rs| - 1], fk, pk) + [(r.name, DictSet(DictSet(NoUrls, fk, Some(r.fetch)), pk, Some(r.push)))]
  }

  lemma {:induction false} ExpectedKinds(rs: seq<Remote>)
    ensures ExpectedAs(rs, "fetch", "push") == Expected(rs)
    decreases |rs|
  {
    if rs != [] {
      var r := rs[|rs| - 1];
      ExpectedKinds(rs[..|rs| - 1]);
      assert DictSet(DictSet(NoUrls, "fetch", Some(r.fetch)), "push", Some(r.push))
        == [("fetch", Some(r.fetch)), ("push", Some(r.push))];
    }
  }

  lemma ParenIsWord(kind: string)
    requires NoSpace(kind)
    ensures IsWord(Paren(kind))
  {
    var k := Paren(kind);
    forall j | 0 <= j < |k| ensures !IsSpace(k[j]) {
      if 0 < j < |k| - 1 { assert k[j] == kind[j - 1]; }
    }
  }

  lemma FieldsOne(w: string)
    requires IsWord(w)
    ensures Fields(w) == [w]
  {
    FieldsCons(w, []);
    assert w + [] == w;
  }

  lemma FieldsPair(u: string, w: string)
    requires IsWord(u) && IsWord(w)
    ensures Fields(u + (" " + w)) == [u, w]
  {
    FieldsOne(w);
    FieldsSkip(' ', w);
    FieldsCons(u, " " + w);
  }

  lemma FieldsOfRemoteLine(name: string, url: string, kind: string)
    requires IsWord(name) && IsWord(url) && NoSpace(kind)
    ensures Fields(RemoteLine(name, url, kind)) == [name, url, Paren(kind)]
  {
    var u := url + (" " + Paren(kind));
    ParenIsWord(kind);
    FieldsPair(url, Paren(kind));
    FieldsSkip('\t', u);
    FieldsCons(name, "\t" + u);
  }

  /** A line starting with a non-blank character is not blank. */
  lemma NotBlank(s: string)
    requires s != [] && !IsSpace(s[0])
    ensures Strip(s) != []
  {
    assert LStrip(s) == s;
    RStripSpaces(s);
  }

  lemma LineNoNewline(name: string, url: string, kind: string)
    requires NoSpace(name) && NoSpace(url) && NoSpace(kind)
    ensures '\n' !in RemoteLine(name, url, kind)
  {
    var l := RemoteLine(name, url, kind);
    var a := |name| + 1;
    var b := a + |url| + 2;
    forall j | 0 <= j < |l| ensures l[j] != '\n' {
      if j < |name| { assert l[j] == name[j]; }
      else if a <= j < a + |url| { assert l[j] == url[j - a]; }
      else if b <= j < b + |kind| { assert l[j] == kind[j - b]; }
    }
  }

  lemma {:induction false} ExpectedKeys(rs: seq<Remote>, fk: string, pk: string, k: string)
    ensures HasKey(ExpectedAs(rs, fk, pk), k) <==> exists i :: 0 <= i < |rs| && rs[i].name == k
    decreases |rs|
  {
    if rs != [] {
      var p := rs[..|rs| - 1];
      var e := ExpectedAs(p, fk, pk);
      var r := rs[|rs| - 1];
      var x := (r.name, DictSet(DictSet(NoUrls, fk, Some(r.fetch)), pk, Some(r.push)));
      ExpectedKeys(p, fk, pk, k);
      assert ExpectedAs(rs, fk, pk) == e + [x];
      if HasKey(e + [x], k) {
        var i :| 0 <= i < |e + [x]| && (e + [x])[i].0 == k;
        if i < |e| { assert (e + [x])[i] == e[i]; assert HasKey(e, k); }
        else { assert rs[|rs| - 1].name == k; }
      }
      if exists i :: 0 <= i < |rs| && rs[i].name == k {
        var i :| 0 <= i < |rs| && rs[i].name == k;
        if i < |p| { assert p[i] == rs[i]; var j :| 0 <= j < |e| && e[j].0 == k; assert (e + [x])[j] == e[j]; }
        else { assert (e + [x])[|e|].0 == k; }
      }
    }
  }

  lemma InnerParen(kind: string)
    ensures InnerKey(Paren(kind)) == kind
  {
    assert Paren(kind)[1..|Paren(kind)| - 1] == kind;
  }

  /** Reading one listed line: the url is stored under its kind. */
  lemma ReadLine(d: RemoteMap, name: string, url: string, kind: string)
    requires IsWord(name) && IsWord(url) && NoSpace(kind)
    ensures AddRemoteLine(d, RemoteLine(name, url, kind))
      == Ok(DictSet(d, name, DictSet(UrlsOf(d, name), kind, Some(url))))
  {
    var l := RemoteLine(name, url, kind);
    FieldsOfRemoteLine(name, url, kind);
    assert l[0] == name[0];
    NotBlank(l);
    InnerParen(kind);
  }

  /** Reading the fetch line of a new remote. */
  lemma FetchLine(d: RemoteMap, r: Remote, fk: string)
    requires IsWord(r.name) && IsWord(r.fetch) && NoSpace(fk) && !HasKey(d, r.name)
    ensures AddRemoteLine(d, RemoteLine(r.name, r.fetch, fk))
      == Ok(d + [(r.name, DictSet(NoUrls, fk, Some(r.fetch)))])
  {
    ReadLine(d, r.name, r.fetch, fk);
    DictSetNew(d, r.name, DictSet(NoUrls, fk, Some(r.fetch)));
  }

  /** Reading the push line of the remote just added. */
  lemma PushLine(d: RemoteMap, r: Remote, u: Urls, pk: string)
    requires IsWord(r.name) && IsWord(r.push) && NoSpace(pk) && !HasKey(d, r.name)
    ensures AddRemoteLine(d + [(r.name, u)], RemoteLine(r.name, r.push, pk))
      == Ok(d + [(r.name, DictSet(u, pk, Some(r.push)))])
  {
    ReadLine(d + [(r.name, u)], r.name, r.push, pk);
    DictSetNew(d, r.name, u);
    DictSetLookup(d, r.name, u, r.name);
    DictSetLast(d, r.name, u, DictSet(u, pk, Some(r.push)));
  }

  /** Reading two more lines after `lines`. */
  lemma ParseTwo(lines: seq<string>, a: string, b: string)
    requires ParseLines(lines).Ok? && AddRemoteLine(ParseLines(lines).value, a).Ok?
    ensures ParseLines(lines + [a, b]) == AddRemoteLine(AddRemoteLine(ParseLines(lines).value, a).value, b)
  {
    var ls := lines + [a, b];
    assert ls[..|ls| - 1] == lines + [a];
    assert (lines + [a])[..|lines|] == lines;
  }

  /** The last remote's name is new to those before it. */
  lemma LastIsNew(rs: seq<Remote>, fk: string, pk: string)
    requires ValidRemotes(rs) && rs != []
    ensures ValidRemotes(rs[..|rs| - 1])
    ensures !HasKey(ExpectedAs(rs[..|rs| - 1], fk, pk), rs[|rs| - 1].name)
  {
    ExpectedKeys(rs[..|rs| - 1], fk, pk, rs[|rs| - 1].name);
  }

  lemma {:induction false} ParseListed(rs: seq<Remote>, fk: string, pk: string)
    requires ValidRemotes(rs) && NoSpace(fk) && NoSpace(pk)
    ensures ParseLines(ListedAs(rs, fk, pk)) == Ok(ExpectedAs(rs, fk, pk))
    decreases |rs|
  {
    if rs != [] {
      var p := rs[..|rs| - 1];
      var r := rs[|rs| - 1];
      var e := ExpectedAs(p, fk, pk);
      LastIsNew(rs, fk, pk);
      ParseListed(p, fk, pk);
      FetchLine(e, r, fk);
      PushLine(e, r, DictSet(NoUrls, fk, Some(r.fetch)), pk);
      ParseTwo(ListedAs(p, fk, pk), RemoteLine(r.name, r.fetch, fk), RemoteLine(r.name, r.push, pk));
    }
  }

  lemma {:induction false} ListedNoNewline(rs: seq<Remote>, fk: string, pk: string)
    requires ValidRemotes(rs) && NoSpace(fk) && NoSpace(pk)
    ensures forall k :: 0 <= k < |ListedAs(rs, fk, pk)| ==> '\n' !in ListedAs(rs, fk, pk)[k]
    decreases |rs|
  {
    if rs != [] {
      var r := rs[|rs| - 1];
      assert ValidRemotes(rs[..|rs| - 1]);
      ListedNoNewline(rs[..|rs| - 1], fk, pk);
      LineNoNewline(r.name, r.fetch, fk);
      LineNoNewline(r.name, r.push, pk);
    }
  }

  /** Reading the listing of remotes with distinct names gives each
      remote's fetch and push url, in listing order. */
  lemma RemotesRoundTrip(rs: seq<Remote>)
    requires ValidRemotes(rs)
    ensures ParseRemotes(ListOutput(rs)) == Ok(Expected(rs))
  {
    var fk, pk := "fetch", "push";
    assert NoSpace(fk) && NoSpace(pk);
    var ls := ListedAs(rs, fk, pk) + [""];
    ListedNoNewline(rs, fk, pk);
    SplitJoin(ls, '\n');
    ParseListed(rs, fk, pk);
    assert ls[..|ls| - 1] == ListedAs(rs, fk, pk);
    assert Strip("") == [];
    ExpectedKinds(rs);
  }
}
