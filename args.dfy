/** `args_to_str` (gitparent/gitp.py), which turns pass-through command-line
    arguments back into one string, and the POSIX-mode `shlex.split` that
    `_git` applies to that string, so that the two can be composed. */
module CommandLine {
  import opened Wrappers
  import opened Text

  /** `s.replace(c, by)` for a one-character pattern. */
  function Replace(s: string, c: char, with: string): (r: string)
    ensures c !in s ==> r == s
  {
    if s == [] then []
    else (if s[0] == c then with else [s[0]]) + Replace(s[1..], c, with)
  }

  /** Replacing a character by itself leaves the string as it was. */
  lemma {:induction false} ReplaceBySelf(s: string, c: char)
    ensures Replace(s, c, [c]) == s
  {
    if s != [] {
      ReplaceBySelf(s[1..], c);
      assert [s[0]] + s[1..] == s;
    }
  }

  /** One argument as `args_to_str` writes it: wrapped in double quotes
      when it holds a space, each `"` replaced by `'\"'`, which in Python
      is the one-character string `"`. */
  function QuoteArg(x: string): string {
    if ' ' in x then "\"" + Replace(x, '"', "\"") + "\"" else x
  }

  function QuoteAll(args: seq<string>): (r: seq<string>)
    ensures |r| == |args| && forall i :: 0 <= i < |args| ==> r[i] == QuoteArg(args[i])
  {
    if args == [] then [] else [QuoteArg(args[0])] + QuoteAll(args[1..])
  }

  /** `args_to_str` as written. */
  function ArgsToStr(args: seq<string>): string {
    JoinWith(QuoteAll(args), " ")
  }

  /** The quoting step leaves embedded double quotes as they were. */
  lemma QuoteArgKeepsQuotes(x: string)
    requires ' ' in x
    ensures QuoteArg(x) == "\"" + x + "\""
  {
    ReplaceBySelf(x, '"');
  }

  /** The lexer states of `shlex.shlex` in POSIX mode with
      `whitespace_split`, as `shlex.split` configures it. */
  datatype LexState = Blank | InWord | InDouble | InSingle | Escaped(back: LexState)

  predicate LexSpace(c: char) { c == ' ' || c == '\t' || c == '\r' || c == '\n' }

  /** `shlex.split(s)` continued from a lexer state, the token read so far
      and whether it was quoted; `None` is the `ValueError` raised for a
      missing closing quotation or a trailing escape. */
  function Lex(s: string, st: LexState, tok: string, quoted: bool): (r: Option<seq<string>>)
    decreases |s|
  {
    if s == [] then
      if st.InDouble? || st.InSingle? || st.Escaped? then None
      else if st.InWord? && (tok != [] || quoted) then Some([tok])
      else Some([])
    else
      var c := s[0];
      var rest := s[1..];
      match st
      case Blank =>
        if LexSpace(c) then Lex(rest, Blank, [], false)
        else if c == '\\' then Lex(rest, Escaped(InWord), tok, quoted)
        else if c == '"' then Lex(rest, InDouble, tok, quoted)
        else if c == '\'' then Lex(rest, InSingle, tok, quoted)
        else Lex(rest, InWord, tok + [c], quoted)
      case InWord =>
        if LexSpace(c) then
          var more := Lex(rest, Blank, [], false);
          if more.Some? then Some([tok] + more.value) else None
        else if c == '\\' then Lex(rest, Escaped(InWord), tok, quoted)
        else if c == '"' then Lex(rest, InDouble, tok, quoted)
        else if c == '\'' then Lex(rest, InSingle, tok, quoted)
        else Lex(rest, InWord, tok + [c], quoted)
      case InDouble =>
        if c == '"' then Lex(rest, InWord, tok, true)
        else if c == '\\' then Lex(rest, Escaped(InDouble), tok, quoted)
        else Lex(rest, InDouble, tok + [c], quoted)
      case InSingle =>
        if c == '\'' then Lex(rest, InWord, tok, true)
        else Lex(rest, InSingle, tok + [c], quoted)
      case Escaped(back) =>
        // Inside double quotes only `"` and `\` are escaped; before any
        // other character the backslash is kept.
        var kept := if back.InDouble? && c != '"' && c != '\\' then "\\" else [];
        Lex(rest, back, tok + kept + [c], quoted)
  }

  /** `shlex.split(s)` */
  function ShlexSplit(s: string): Option<seq<string>> {
    Lex(s, Blank, [], false)
  }

  /** A character with no meaning to the lexer. */
  predicate Ordinary(c: char) { !LexSpace(c) && c != '"' && c != '\'' && c != '\\' }

  /** An argument `args_to_str` renders so that `shlex.split` gives it
      back: not empty, no quote or backslash, and no whitespace but spaces. */
  predicate Plain(x: string) {
    x != [] && forall i :: 0 <= i < |x| ==> x[i] == ' ' || Ordinary(x[i])
  }

  lemma {:induction false} LexWord(w: string, rest: string, tok: string, quoted: bool)
    requires forall i :: 0 <= i < |w| ==> Ordinary(w[i])
    ensures Lex(w + rest, InWord, tok, quoted) == Lex(rest, InWord, tok + w, quoted)
  {
    if w != [] {
      var s := w + rest;
      assert s[0] == w[0] && s[1..] == w[1..] + rest;
      assert Ordinary(w[0]);
      assert Lex(s, InWord, tok, quoted) == Lex(s[1..], InWord, tok + [w[0]], quoted);
      LexWord(w[1..], rest, tok + [w[0]], quoted);
      assert tok + [w[0]] + w[1..] == tok + w;
    } else {
      assert w + rest == rest && tok + w == tok;
    }
  }

  /** Inside double quotes, everything but a quote or a backslash is kept. */
  lemma {:induction false} LexQuoted(w: string, rest: string, tok: string, quoted: bool)
    requires forall i :: 0 <= i < |w| ==> w[i] != '"' && w[i] != '\\'
    ensures Lex(w + rest, InDouble, tok, quoted) == Lex(rest, InDouble, tok + w, quoted)
  {
    if w != [] {
      assert (w + rest)[0] == w[0] && (w + rest)[1..] == w[1..] + rest;
      LexQuoted(w[1..], rest, tok + [w[0]], quoted);
      assert tok + [w[0]] + w[1..] == tok + w;
    } else {
      assert w + rest == rest && tok + w == tok;
    }
  }

  /** Reading an argument without spaces, which is written bare. */
  lemma LexBare(x: string, rest: string)
    requires x != [] && forall i :: 0 <= i < |x| ==> Ordinary(x[i])
    ensures Lex(x + rest, Blank, [], false) == Lex(rest, InWord, x, false)
  {
    var s := x + rest;
    assert s[0] == x[0] && s[1..] == x[1..] + rest;
    assert [] + [x[0]] == [x[0]];
    assert Lex(s, Blank, [], false) == Lex(x[1..] + rest, InWord, [x[0]], false);
    LexWord(x[1..], rest, [x[0]], false);
    assert [x[0]] + x[1..] == x;
  }

  /** Reading a double-quoted body free of quotes and backslashes. */
  lemma LexInQuotes(x: string, rest: string)
    requires forall i :: 0 <= i < |x| ==> x[i] != '"' && x[i] != '\\'
    ensures Lex("\"" + x + "\"" + rest, Blank, [], false) == Lex(rest, InWord, x, true)
  {
    var s := "\"" + x + "\"" + rest;
    assert s[0] == '"' && s[1..] == x + ("\"" + rest);
    LexQuoted(x, "\"" + rest, [], false);
    assert ("\"" + rest)[0] == '"' && ("\"" + rest)[1..] == rest;
    assert [] + x == x;
  }

  /** Reading one rendered argument followed by a separator or the end. */
  lemma LexArg(x: string, rest: string)
    requires Plain(x)
    ensures Lex(QuoteArg(x) + rest, Blank, [], false) == Lex(rest, InWord, x, ' ' in x)
  {
    if ' ' in x {
      QuoteArgKeepsQuotes(x);
      LexInQuotes(x, rest);
    } else {
      forall i | 0 <= i < |x| ensures Ordinary(x[i]) { assert x[i] in x; }
      LexBare(x, rest);
    }
  }

  /** A space ends the token read so far. */
  lemma LexSeparator(x: string, quoted: bool, tail: string, more: seq<string>)
    requires ShlexSplit(tail) == Some(more)
    ensures Lex(" " + tail, InWord, x, quoted) == Some([x] + more)
  {
    assert (" " + tail)[0] == ' ' && (" " + tail)[1..] == tail;
  }

  /** `shlex.split(args_to_str(args)) == args` for plain arguments. */
  lemma {:induction false} ArgsRoundTrip(args: seq<string>)
    requires forall i :: 0 <= i < |args| ==> Plain(args[i])
    ensures ShlexSplit(ArgsToStr(args)) == Some(args)
  {
    if args == [] {
    } else if |args| == 1 {
      LexArg(args[0], []);
      assert QuoteAll(args) == [QuoteArg(args[0])];
      assert QuoteArg(args[0]) + [] == QuoteArg(args[0]);
      assert ArgsToStr(args) == QuoteArg(args[0]);
      assert args == [args[0]];
    } else {
      var tail := ArgsToStr(args[1..]);
      assert QuoteAll(args)[1..] == QuoteAll(args[1..]);
      assert ArgsToStr(args) == QuoteArg(args[0]) + (" " + tail);
      LexArg(args[0], " " + tail);
      ArgsRoundTrip(args[1..]);
      LexSeparator(args[0], ' ' in args[0], tail, args[1..]);
      assert [args[0]] + args[1..] == args;
    }
  }

  /** As written, an argument holding both a space and a double quote is
      not given back: `a "b` is rendered as `"a "b"`, whose last quote is
      never closed. */
  lemma QuotedQuoteLost()
    ensures ArgsToStr(["a \"b"]) == "\"a \"b\""
    ensures ShlexSplit(ArgsToStr(["a \"b"])) == None
  {
    QuotedRendering();
    UnclosedQuote();
  }

  lemma QuotedRendering()
    ensures ArgsToStr(["a \"b"]) == "\"a \"b\""
  {
    QuoteArgKeepsQuotes("a \"b");
    assert QuoteAll(["a \"b"]) == [QuoteArg("a \"b")];
  }

  lemma UnclosedQuote()
    ensures ShlexSplit("\"a \"b\"") == None
  {
    var s := "\"a \"b\"";
    assert s[0] == '"' && s[1..] == "a \"b\"";
    assert Lex(s, Blank, [], false) == Lex("a \"b\"", InDouble, [], false);
    assert "a \"b\""[1..] == " \"b\"";
    assert Lex("a \"b\"", InDouble, [], false) == Lex(" \"b\"", InDouble, "a", false);
    assert " \"b\""[1..] == "\"b\"";
    assert Lex(" \"b\"", InDouble, "a", false) == Lex("\"b\"", InDouble, "a ", false);
    assert "\"b\""[1..] == "b\"";
    assert Lex("\"b\"", InDouble, "a ", false) == Lex("b\"", InWord, "a ", true);
    assert "b\""[1..] == "\"";
    assert Lex("b\"", InWord, "a ", true) == Lex("\"", InWord, "a b", true);
    assert Lex("\"", InWord, "a b", true) == Lex([], InDouble, "a b", true);
  }

  /** One argument as `args_to_str` evidently means to write it: each `"`
      escaped as `\"` inside the double quotes. */
  function QuoteArgEscaped(x: string): string {
    if ' ' in x then "\"" + Replace(x, '"', "\\\"") + "\"" else x
  }

  function QuoteAllEscaped(args: seq<string>): (r: seq<string>)
    ensures |r| == |args| && forall i :: 0 <= i < |args| ==> r[i] == QuoteArgEscaped(args[i])
  {
    if args == [] then [] else [QuoteArgEscaped(args[0])] + QuoteAllEscaped(args[1..])
  }

  /** `args_to_str` with the escape it evidently intends. */
  function ArgsToStrEscaped(args: seq<string>): string {
    JoinWith(QuoteAllEscaped(args), " ")
  }

  /** An argument the escaping rendering gives back: `Plain`, except that
      an argument holding a space may also hold double quotes. */
  predicate Quotable(x: string) {
    x != [] &&
    (forall i :: 0 <= i < |x| ==> x[i] == ' ' || Ordinary(x[i]) || x[i] == '"') &&
    ('"' in x ==> ' ' in x)
  }

  lemma {:induction false} LexEscaped(w: string, rest: string, tok: string, quoted: bool)
    requires forall i :: 0 <= i < |w| ==> w[i] != '\\'
    ensures Lex(Replace(w, '"', "\\\"") + rest, InDouble, tok, quoted) == Lex(rest, InDouble, tok + w, quoted)
  {
    if w != [] {
      var tail := Replace(w[1..], '"', "\\\"") + rest;
      LexEscaped(w[1..], rest, tok + [w[0]], quoted);
      assert tok + [w[0]] + w[1..] == tok + w;
      ReplaceFirst(w, '"', "\\\"", rest);
      if w[0] == '"' {
        LexEscapedQuote(tail, tok, quoted);
      } else {
        LexPlainInQuotes(w[0], tail, tok, quoted);
      }
    } else {
      assert Replace(w, '"', "\\\"") + rest == rest && tok + w == tok;
    }
  }

  lemma ReplaceFirst(w: string, c: char, with: string, rest: string)
    requires w != []
    ensures Replace(w, c, with) + rest == (if w[0] == c then with else [w[0]]) + (Replace(w[1..], c, with) + rest)
  {
  }

  /** A character other than a quote or backslash inside double quotes is kept. */
  lemma LexPlainInQuotes(c: char, tail: string, tok: string, quoted: bool)
    requires c != '"' && c != '\\'
    ensures Lex([c] + tail, InDouble, tok, quoted) == Lex(tail, InDouble, tok + [c], quoted)
  {
    assert ([c] + tail)[0] == c && ([c] + tail)[1..] == tail;
  }

  /** An escaped quote inside double quotes reads as a quote. */
  lemma LexEscapedQuote(tail: string, tok: string, quoted: bool)
    ensures Lex("\\\"" + tail, InDouble, tok, quoted) == Lex(tail, InDouble, tok + ['"'], quoted)
  {
    var s := "\\\"" + tail;
    assert s[0] == '\\' && s[1..] == "\"" + tail;
    assert ("\"" + tail)[0] == '"' && ("\"" + tail)[1..] == tail;
    assert Lex(s, InDouble, tok, quoted) == Lex("\"" + tail, Escaped(InDouble), tok, quoted);
    assert tok + [] + ['"'] == tok + ['"'];
  }

  lemma LexArgEscaped(x: string, rest: string)
    requires Quotable(x)
    ensures Lex(QuoteArgEscaped(x) + rest, Blank, [], false) == Lex(rest, InWord, x, ' ' in x)
  {
    if ' ' in x {
      var body := Replace(x, '"', "\\\"");
      var s := "\"" + body + "\"" + rest;
      assert s[0] == '"' && s[1..] == body + ("\"" + rest);
      LexEscaped(x, "\"" + rest, [], false);
      assert ("\"" + rest)[1..] == rest;
      assert [] + x == x;
    } else {
      assert Plain(x);
      LexArg(x, rest);
    }
  }

  /** With the escape in place, every quotable argument survives the
      `shlex.split` that `_git` applies, including the one that is lost
      as written. */
  lemma {:induction false} ArgsRoundTripEscaped(args: seq<string>)
    requires forall i :: 0 <= i < |args| ==> Quotable(args[i])
    ensures ShlexSplit(ArgsToStrEscaped(args)) == Some(args)
  {
    if args == [] {
    } else if |args| == 1 {
      LexArgEscaped(args[0], []);
      assert QuoteAllEscaped(args) == [QuoteArgEscaped(args[0])];
      assert QuoteArgEscaped(args[0]) + [] == QuoteArgEscaped(args[0]);
      assert ArgsToStrEscaped(args) == QuoteArgEscaped(args[0]);
      assert args == [args[0]];
    } else {
      var tail := ArgsToStrEscaped(args[1..]);
      assert QuoteAllEscaped(args)[1..] == QuoteAllEscaped(args[1..]);
      assert ArgsToStrEscaped(args) == QuoteArgEscaped(args[0]) + (" " + tail);
      LexArgEscaped(args[0], " " + tail);
      ArgsRoundTripEscaped(args[1..]);
      LexSeparator(args[0], ' ' in args[0], tail, args[1..]);
      assert [args[0]] + args[1..] == args;
    }
  }
}
