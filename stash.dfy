/** The bookkeeping of `stash` (gitparent/gitp.py): the `.gitp_stashes`
    file holds one `git stash list` line per stash gitp made across the
    tree. A line is recognised by `is_gitp_stash`, renumbered by
    `update_stash_pos`, checked and selected from before a read operation,
    and a new stash gets an id no other line holds. Regular expressions are
    written out as the string functions they amount to. */
module Stash {
  import opened Wrappers
  import opened Text

  /** The groups `is_gitp_stash` returns: stack position, branch, message
      and the gitp id encoded in the message. */
  datatype StashEntry = StashEntry(pos: string, branch: string, msg: string, id: string)

  /** Length of the leading run of decimal digits (a greedy `\d+`). */
  function DigitRun(s: string): (r: nat)
    ensures r <= |s|
    ensures r < |s| ==> !IsDigit(s[r])
  {
    if s == [] || !IsDigit(s[0]) then 0 else 1 + DigitRun(s[1..])
  }

  /** The leading characters up to the first newline (a greedy `.*`). */
  function ToNewline(s: string): (r: string)
    ensures |r| <= |s| && r == s[..|r|] && '\n' !in r
    ensures |r| < |s| ==> s[|r|] == '\n'
  {
    if s == [] || s[0] == '\n' then [] else [s[0]] + ToNewline(s[1..])
  }

  /** The lazy `(.+?):\s`: the shortest non-empty run without a newline
      followed by a colon and a whitespace character, trying lengths from
      `k` on. */
  function LazyBranch(v: string, k: nat): (r: Option<nat>)
    requires 1 <= k
    ensures r.Some? ==> k <= r.value && r.value + 1 < |v| && v[r.value] == ':' && IsSpace(v[r.value + 1])
    decreases |v| - k
  {
    if k + 1 >= |v| || v[k - 1] == '\n' then None
    else if v[k] == ':' && IsSpace(v[k + 1]) then Some(k)
    else LazyBranch(v, k + 1)
  }

  /** `stash@{(\d+)}:\sOn\s(.+?):\s(.*)` matched at the start of `s`:
      position, branch and message. */
  function MatchHere(s: string): Option<(string, string, string)> {
    if !StartsWith(s, "stash@{") then None
    else
      var t := s[7..];
      var d := DigitRun(t);
      var u := t[d..];
      if d == 0 || |u| < 6 || u[..2] != "}:" || !IsSpace(u[2]) || u[3..5] != "On" || !IsSpace(u[5]) then None
      else
        var v := u[6..];
        match LazyBranch(v, 1)
        case None => None
        case Some(k) => Some((t[..d], v[..k], ToNewline(v[k + 2..])))
  }

  /** `re.search`: the leftmost position from `i` on where the pattern matches. */
  function Search(s: string, i: nat): Option<(string, string, string)>
    decreases |s| - i
  {
    if i >= |s| then None
    else match MatchHere(s[i..])
      case Some(g) => Some(g)
      case None => Search(s, i + 1)
  }

  /** `is_gitp_stash(line, gitp_id)`: the line's groups when it is a stash
      line whose message starts with `__gitp` and digits (the id) and, when
      an id is asked for, carries that id. */
  function IsGitpStash(line: string, gitpId: Option<string>): (r: Option<StashEntry>)
    ensures r.Some? ==> StartsWith(r.value.msg, "__gitp" + r.value.id) && r.value.id != [] && AllDigits(r.value.id)
    ensures r.Some? && gitpId.Some? ==> r.value.id == gitpId.value
  {
    match Search(line, 0)
    case None => None
    case Some((pos, branch, msg)) =>
      if !StartsWith(msg, "__gitp") then None
      else
        var d := DigitRun(msg[6..]);
        var id := msg[6..6 + d];
        if d == 0 then None
        else if gitpId.Some? && gitpId.value != id then None
        else
          DigitsPrefix(msg[6..], d);
          assert msg[6..][..d] == id;
          assert msg[..6 + d] == msg[..6] + id;
          Some(StashEntry(pos, branch, msg, id))
  }

  lemma {:induction false} DigitsPrefix(s: string, d: nat)
    requires d <= DigitRun(s)
    ensures AllDigits(s[..d])
  {
    if d > 0 {
      DigitsPrefix(s[1..], d - 1);
      assert s[..d] == [s[0]] + s[1..][..d - 1];
    }
  }

  /** Asking for an id keeps exactly the lines that carry it. */
  lemma IsGitpStashById(line: string, id: string)
    ensures IsGitpStash(line, Some(id)) == if IsGitpStash(line, None).Some? && IsGitpStash(line, None).value.id == id
                                          then IsGitpStash(line, None) else None
  {
  }

  /** `stash@{<pos>}` */
  function StashRef(pos: nat): string {
    "stash@{" + Decimal(pos) + "}"
  }

  /** The message `stash` gives a new stash: `__gitp<id> <message>`. */
  function GitpMsg(id: string, text: string): string {
    "__gitp" + id + " " + text
  }

  /** What follows the reference in a stash list line. */
  function StashBody(branch: string, msg: string): string {
    ": On " + branch + ": " + msg
  }

  /** The line `stash` writes for a new stash on the current branch at
      position `pos`. */
  function StashLine(pos: nat, branch: string, id: string, text: string): string {
    StashRef(pos) + StashBody(branch, GitpMsg(id, text))
  }

  /** A branch name the lazy group reads back whole. */
  predicate PlainBranch(b: string) { b != [] && ':' !in b && '\n' !in b }

  /** The lazy group stops at the first colon followed by whitespace. */
  lemma {:induction false} LazyBranchFinds(b: string, rest: string, k: nat)
    requires PlainBranch(b) && 1 <= k <= |b|
    ensures LazyBranch(b + ": " + rest, k) == Some(|b|)
    decreases |b| - k
  {
    var v := b + ": " + rest;
    assert v[k - 1] == b[k - 1];
    if k < |b| {
      assert v[k] == b[k];
      LazyBranchFinds(b, rest, k + 1);
    } else {
      assert v[k] == ':' && v[k + 1] == ' ';
    }
  }

  lemma {:induction false} DigitRunOf(ds: string, rest: string)
    requires AllDigits(ds) && (rest == [] || !IsDigit(rest[0]))
    ensures DigitRun(ds + rest) == |ds|
  {
    if ds != [] {
      assert (ds + rest)[1..] == ds[1..] + rest;
      DigitRunOf(ds[1..], rest);
    } else {
      assert ds + rest == rest;
    }
  }

  lemma {:induction false} ToNewlineOf(text: string, tail: string)
    requires '\n' !in text && (tail == [] || tail[0] == '\n')
    ensures ToNewline(text + tail) == text
  {
    if text != [] {
      assert (text + tail)[1..] == text[1..] + tail;
      ToNewlineOf(text[1..], tail);
      assert [text[0]] + text[1..] == text;
    } else {
      assert text + tail == tail;
    }
  }

  lemma Concat4(a: string, b: string, c: string, d: string)
    ensures a + b + c + d == a + (b + (c + d))
  {
  }

  /** A line that starts with a reference, split after its digits. */
  lemma RefHead(pos: nat, w: string)
    ensures var s := StashRef(pos) + w;
      var p := Decimal(pos);
      && StartsWith(s, "stash@{") && s[0..] == s
      && DigitRun(s[7..]) == |p| && s[7..][..|p|] == p && s[7..][|p|..] == "}" + w
      && FindRef(s, 0) == Some((0, |p|)) && s[7 + |p| + 1..] == w
  {
    var p := Decimal(pos);
    var s := StashRef(pos) + w;
    Concat4("stash@{", p, "}", w);
    assert s == "stash@{" + (p + ("}" + w));
    assert s[..7] == "stash@{";
    assert s[7..] == p + ("}" + w);
    DigitRunOf(p, "}" + w);
    assert s[7 + |p|] == '}';
    assert RefAt(s, 0) == Some(|p|);
  }

  /** `}:\sOn\s(.+?):\s` after the digits, with the branch read back. */
  lemma BodyHead(branch: string, rest: string)
    requires PlainBranch(branch)
    ensures var u := "}" + StashBody(branch, rest);
      && |u| >= 6 && u[..2] == "}:" && IsSpace(u[2]) && u[3..5] == "On" && IsSpace(u[5])
      && u[6..] == branch + ": " + rest
      && LazyBranch(u[6..], 1) == Some(|branch|)
      && u[6..][..|branch|] == branch && u[6..][|branch| + 2..] == rest
  {
    var v := branch + ": " + rest;
    var u := "}" + StashBody(branch, rest);
    assert StashBody(branch, rest) == ": On " + v;
    assert u == "}: On " + v;
    assert u[6..] == v;
    LazyBranchFinds(branch, rest, 1);
    assert v[..|branch|] == branch;
    assert v[|branch| + 2..] == rest;
  }

  /** The pattern read at the start of a line of the written shape. */
  lemma MatchHereOf(pos: nat, branch: string, rest: string)
    requires PlainBranch(branch)
    ensures MatchHere(StashRef(pos) + StashBody(branch, rest)) == Some((Decimal(pos), branch, ToNewline(rest)))
  {
    RefHead(pos, StashBody(branch, rest));
    BodyHead(branch, rest);
  }

  /** `__gitp`, the id's digits, and the text after a space. */
  lemma GitpMessage(id: string, text: string)
    requires id != [] && AllDigits(id) && '\n' !in text
    ensures var msg := GitpMsg(id, text);
      StartsWith(msg, "__gitp") && DigitRun(msg[6..]) == |id| && msg[6..6 + |id|] == id && '\n' !in msg
  {
    var msg := GitpMsg(id, text);
    assert msg[..6] == "__gitp";
    assert msg[6..] == id + (" " + text);
    DigitRunOf(id, " " + text);
    assert msg[6..6 + |id|] == id;
    forall i | 0 <= i < |msg| ensures msg[i] != '\n' {
      if 6 <= i < 6 + |id| { assert msg[i] == id[i - 6] && IsDigit(id[i - 6]); }
      if i >= 7 + |id| { assert msg[i] == text[i - 7 - |id|]; }
    }
  }

  /** A written stash line, with or without its line ending, reads back as
      the position, branch, message and id it was written with. */
  lemma StashLineRoundTrip(pos: nat, branch: string, id: string, text: string, tail: string)
    requires PlainBranch(branch) && id != [] && AllDigits(id) && '\n' !in text
    requires tail == [] || tail[0] == '\n'
    ensures IsGitpStash(StashLine(pos, branch, id, text) + tail, None)
      == Some(StashEntry(Decimal(pos), branch, GitpMsg(id, text), id))
  {
    SearchStashLine(pos, branch, id, text, tail);
    GitpAccepted(StashLine(pos, branch, id, text) + tail, Decimal(pos), branch, id, text);
  }

  /** The pattern finds the written groups at the start of the line. */
  lemma SearchStashLine(pos: nat, branch: string, id: string, text: string, tail: string)
    requires PlainBranch(branch) && id != [] && AllDigits(id) && '\n' !in text
    requires tail == [] || tail[0] == '\n'
    ensures Search(StashLine(pos, branch, id, text) + tail, 0) == Some((Decimal(pos), branch, GitpMsg(id, text)))
  {
    var msg := GitpMsg(id, text);
    var line := StashLine(pos, branch, id, text) + tail;
    assert line == StashRef(pos) + StashBody(branch, msg + tail);
    MatchHereOf(pos, branch, msg + tail);
    GitpMessage(id, text);
    ToNewlineOf(msg, tail);
    assert line[0..] == line;
  }

  /** A found message of the written shape is accepted with its id. */
  lemma GitpAccepted(line: string, p: string, branch: string, id: string, text: string)
    requires id != [] && AllDigits(id) && '\n' !in text
    requires Search(line, 0) == Some((p, branch, GitpMsg(id, text)))
    ensures IsGitpStash(line, None) == Some(StashEntry(p, branch, GitpMsg(id, text), id))
  {
    GitpMessage(id, text);
  }

  /** The reference `stash@{<digits>}` found at position `p` of `s`, as the
      length of its digits. */
  function RefAt(s: string, p: nat): (r: Option<nat>)
    requires p <= |s|
    ensures r.Some? ==> r.value > 0 && p + 7 + r.value < |s|
  {
    if !StartsWith(s[p..], "stash@{") then None
    else
      var d := DigitRun(s[p + 7..]);
      if d > 0 && p + 7 + d < |s| && s[p + 7 + d] == '}' then Some(d) else None
  }

  /** The leftmost reference from `p` on. */
  function FindRef(s: string, p: nat): (r: Option<(nat, nat)>)
    requires p <= |s|
    ensures r.Some? ==> p <= r.value.0 <= |s| && RefAt(s, r.value.0) == Some(r.value.1)
    decreases |s| - p
  {
    if p == |s| then None
    else match RefAt(s, p)
      case Some(d) => Some((p, d))
      case None => FindRef(s, p + 1)
  }

  /** `re.sub` of `stash@{(\d+)}(.*)`: every reference, together with the
      rest of its line, is replaced by one holding the position `n`. */
  function Renumber(s: string, n: nat): string
    decreases |s|
  {
    match FindRef(s, 0)
    case None => s
    case Some((p, d)) =>
      var e := p + 7 + d + 1;
      var rest := ToNewline(s[e..]);
      s[..p] + "stash@{" + Decimal(n) + "}" + rest + Renumber(s[e + |rest|..], n)
  }

  /** Renumbering a written stash line gives the line written at the new
      position: only the number changes. */
  lemma RenumberStashLine(pos: nat, branch: string, id: string, text: string, tail: string, n: nat)
    requires '\n' !in branch && AllDigits(id) && '\n' !in text
    requires tail == [] || tail == "\n"
    ensures Renumber(StashLine(pos, branch, id, text) + tail, n) == StashLine(n, branch, id, text) + tail
  {
    var body := StashBody(branch, GitpMsg(id, text));
    var line := StashLine(pos, branch, id, text) + tail;
    assert line == StashRef(pos) + (body + tail);
    RefHead(pos, body + tail);
    NoNewlineInBody(branch, id, text);
    ToNewlineOf(body, tail);
    assert (body + tail)[|body|..] == tail;
    TailKept(tail, n);
    assert Renumber(line, n) == line[..0] + "stash@{" + Decimal(n) + "}" + body + tail;
    assert line[..0] + "stash@{" == "stash@{";
  }

  lemma NoNewlineInBody(branch: string, id: string, text: string)
    requires '\n' !in branch && AllDigits(id) && '\n' !in text
    ensures '\n' !in StashBody(branch, GitpMsg(id, text))
  {
    var body := StashBody(branch, GitpMsg(id, text));
    var k := 5 + |branch| + 8;
    assert body == ": On " + branch + ": __gitp" + id + " " + text;
    forall i | 0 <= i < |body| ensures body[i] != '\n' {
      if 5 <= i < 5 + |branch| { assert body[i] == branch[i - 5]; }
      if k <= i < k + |id| { assert body[i] == id[i - k] && IsDigit(id[i - k]); }
      if i > k + |id| { assert body[i] == text[i - k - |id| - 1]; }
    }
  }

  /** A line ending holds no reference. */
  lemma TailKept(tail: string, n: nat)
    requires tail == [] || tail == "\n"
    ensures Renumber(tail, n) == tail
  {
    if tail != [] {
      assert RefAt(tail, 0) == None;
      assert FindRef(tail, 1) == None;
    }
  }

  /** The contents of `.gitp_stashes`, as the list of lines `stash` reads
      and rewrites. */
  class StashFile {
    var lines: seq<string>

    constructor(ls: seq<string>)
      ensures lines == ls
    {
      lines := ls;
    }

    /** `update_stash_pos(lines)`: each line's reference takes the line's
        index as its position. */
    method UpdateStashPos()
      modifies this
      ensures |lines| == |old(lines)|
      ensures forall i :: 0 <= i < |lines| ==> lines[i] == Renumber(old(lines)[i], i)
    {
      var i := 0;
      while i < |lines|
        invariant 0 <= i <= |lines| == |old(lines)|
        invariant forall j :: 0 <= j < i ==> lines[j] == Renumber(old(lines)[j], j)
        invariant forall j :: i <= j < |lines| ==> lines[j] == old(lines)[j]
      {
        lines := lines[i := Renumber(lines[i], i)];
        i := i + 1;
      }
    }

    /** A `push`: the new stash line goes on top and every line is
        renumbered, so the lines below move down by one. */
    method PushLine(branch: string, id: string, text: string)
      modifies this
      ensures |lines| == |old(lines)| + 1
      ensures lines[0] == Renumber(StashLine(0, branch, id, text) + "\n", 0)
      ensures forall i :: 1 <= i < |lines| ==> lines[i] == Renumber(old(lines)[i - 1], i)
    {
      lines := [StashLine(0, branch, id, text) + "\n"] + lines;
      UpdateStashPos();
    }
  }

  /** After a push onto a file of written lines, every line is the one
      written at its new position. */
  lemma PushRenumbers(ls: seq<string>, pushed: seq<string>, branch: string, id: string, text: string,
                      entries: seq<(nat, string, string, string)>)
    requires |ls| == |entries| && |pushed| == |ls| + 1
    requires forall i :: 0 <= i < |ls| ==> '\n' !in entries[i].1 && AllDigits(entries[i].2) && '\n' !in entries[i].3
    requires forall i :: 0 <= i < |ls| ==> ls[i] == StashLine(entries[i].0, entries[i].1, entries[i].2, entries[i].3) + "\n"
    requires '\n' !in branch && AllDigits(id) && '\n' !in text
    requires pushed[0] == Renumber(StashLine(0, branch, id, text) + "\n", 0)
    requires forall i :: 1 <= i < |pushed| ==> pushed[i] == Renumber(ls[i - 1], i)
    ensures pushed[0] == StashLine(0, branch, id, text) + "\n"
    ensures forall i :: 1 <= i < |pushed| ==>
      pushed[i] == StashLine(i, entries[i - 1].1, entries[i - 1].2, entries[i - 1].3) + "\n"
  {
    RenumberStashLine(0, branch, id, text, "\n", 0);
    forall i | 1 <= i < |pushed|
      ensures pushed[i] == StashLine(i, entries[i - 1].1, entries[i - 1].2, entries[i - 1].3) + "\n"
    {
      var e := entries[i - 1];
      RenumberStashLine(e.0, e.1, e.2, e.3, "\n", i);
    }
  }
}
