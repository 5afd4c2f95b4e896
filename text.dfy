/** Character and string helpers standing for the Python string methods and
    regular-expression classes the modelled code uses (`str.strip`,
    `str.split`, `str.startswith`, `\s`, `\d`, `str(int)`, `int(str)`,
    `os.path.join`). Whitespace and digits are the ASCII ones. */
module Text {

  /** Python's `str.isspace` / regex `\s`, restricted to ASCII. */
  predicate IsSpace(c: char) {
    c == ' ' || '\t' <= c <= '\r' || 28 <= c as int <= 31
  }

  /** Regex `\d`, restricted to ASCII. */
  predicate IsDigit(c: char) { '0' <= c <= '9' }

  predicate AllDigits(s: string) { forall i :: 0 <= i < |s| ==> IsDigit(s[i]) }

  predicate StartsWith(s: string, p: string) { |p| <= |s| && s[..|p|] == p }

  predicate EndsWith(s: string, p: string) { |p| <= |s| && s[|s| - |p|..] == p }

  predicate Contains(s: string, c: char) { exists i :: 0 <= i < |s| && s[i] == c }

  /** `s.lstrip()` */
  function LStrip(s: string): (r: string)
    ensures |r| <= |s| && r == s[|s| - |r|..]
    ensures r == [] || !IsSpace(r[0])
  {
    if s == [] || !IsSpace(s[0]) then s else LStrip(s[1..])
  }

  /** `s.rstrip()` */
  function RStrip(s: string): (r: string)
    ensures |r| <= |s| && r == s[..|r|]
    ensures r == [] || !IsSpace(r[|r| - 1])
  {
    if s == [] || !IsSpace(s[|s| - 1]) then s else RStrip(s[..|s| - 1])
  }

  /** `rstrip` removes only whitespace. */
  lemma {:induction false} RStripSpaces(s: string)
    ensures forall i :: |RStrip(s)| <= i < |s| ==> IsSpace(s[i])
  {
    if s != [] && IsSpace(s[|s| - 1]) {
      RStripSpaces(s[..|s| - 1]);
    }
  }

  /** `s.strip()` */
  function Strip(s: string): string { RStrip(LStrip(s)) }

  /** `s.split(sep)` for a one-character separator: always at least one
      piece, empty pieces kept. */
  function SplitOn(s: string, sep: char): (r: seq<string>)
    ensures |r| >= 1
    ensures forall k :: 0 <= k < |r| ==> sep !in r[k]
  {
    if s == [] then [[]]
    else
      var rest := SplitOn(s[1..], sep);
      if s[0] == sep then [[]] + rest else [[s[0]] + rest[0]] + rest[1..]
  }

  /** `sep.join(parts)` */
  function JoinWith(parts: seq<string>, sep: string): string {
    if parts == [] then []
    else if |parts| == 1 then parts[0]
    else parts[0] + sep + JoinWith(parts[1..], sep)
  }

  lemma {:induction false} SplitJoin(parts: seq<string>, sep: char)
    requires |parts| >= 1
    requires forall k :: 0 <= k < |parts| ==> sep !in parts[k]
    ensures SplitOn(JoinWith(parts, [sep]), sep) == parts
  {
    if |parts| == 1 {
      NoSepSplit(parts[0], sep);
    } else {
      SplitJoin(parts[1..], sep);
      SplitAppend(parts[0], JoinWith(parts[1..], [sep]), sep);
    }
  }

  lemma {:induction false} NoSepSplit(s: string, sep: char)
    requires sep !in s
    ensures SplitOn(s, sep) == [s]
  {
    if s != [] {
      assert s[0] != sep;
      assert sep !in s[1..];
      NoSepSplit(s[1..], sep);
      assert [s[0]] + s[1..] == s;
    }
  }

  lemma {:induction false} SplitAppend(a: string, b: string, sep: char)
    requires sep !in a
    ensures SplitOn(a + [sep] + b, sep) == [a] + SplitOn(b, sep)
  {
    if a == [] {
      assert a + [sep] + b == [sep] + b;
      assert ([sep] + b)[1..] == b;
    } else {
      var whole := a + [sep] + b;
      assert whole[0] == a[0] && a[0] != sep;
      assert whole[1..] == a[1..] + [sep] + b;
      assert sep !in a[1..];
      SplitAppend(a[1..], b, sep);
      assert [a[0]] + a[1..] == a;
    }
  }

  /** Python's `str.split()` with no argument: maximal runs of
      non-whitespace, no empty fields. */
  function Fields(s: string): seq<string> {
    FieldsAfter(s, [])
  }

  /** The fields of `s` when the run `cur` of non-whitespace precedes it. */
  function FieldsAfter(s: string, cur: string): seq<string>
    decreases |s|
  {
    if s == [] then Pending(cur)
    else if IsSpace(s[0]) then Pending(cur) + FieldsAfter(s[1..], [])
    else FieldsAfter(s[1..], cur + [s[0]])
  }

  /** The run in progress, as a field if it is not empty. */
  function Pending(cur: string): seq<string> {
    if cur == [] then [] else [cur]
  }

  predicate NoSpace(w: string) { forall j :: 0 <= j < |w| ==> !IsSpace(w[j]) }

  /** A field: a non-empty run of non-whitespace. */
  predicate IsWord(w: string) { w != [] && NoSpace(w) }

  /** Every field is a non-empty run of non-whitespace. */
  lemma {:induction false} FieldsAfterAreWords(s: string, cur: string)
    requires NoSpace(cur)
    ensures forall k :: 0 <= k < |FieldsAfter(s, cur)| ==> IsWord(FieldsAfter(s, cur)[k])
    decreases |s|
  {
    if s != [] {
      if IsSpace(s[0]) {
        FieldsAfterAreWords(s[1..], []);
        var rest := FieldsAfter(s[1..], []);
        forall k | 0 <= k < |Pending(cur) + rest| ensures IsWord((Pending(cur) + rest)[k]) {
          if k >= |Pending(cur)| { assert (Pending(cur) + rest)[k] == rest[k - |Pending(cur)|]; }
        }
      } else {
        var c := cur + [s[0]];
        assert NoSpace(c) by {
          forall j | 0 <= j < |c| ensures !IsSpace(c[j]) {
            if j < |cur| { assert c[j] == cur[j]; }
          }
        }
        FieldsAfterAreWords(s[1..], c);
      }
    }
  }

  lemma FieldsAreWords(s: string)
    ensures forall k :: 0 <= k < |Fields(s)| ==> IsWord(Fields(s)[k])
  {
    FieldsAfterAreWords(s, []);
  }

  /** A run of non-whitespace joins the run in progress. */
  lemma {:induction false} FieldsAfterWord(w: string, rest: string, cur: string)
    requires NoSpace(w)
    ensures FieldsAfter(w + rest, cur) == FieldsAfter(rest, cur + w)
    decreases |w|
  {
    if w != [] {
      assert (w + rest)[1..] == w[1..] + rest;
      FieldsAfterWord(w[1..], rest, cur + [w[0]]);
      assert cur + [w[0]] + w[1..] == cur + w;
    } else {
      assert w + rest == rest;
      assert cur + w == cur;
    }
  }

  /** A field followed by the end or by whitespace is the first field. */
  lemma FieldsCons(w: string, rest: string)
    requires IsWord(w) && (rest == [] || IsSpace(rest[0]))
    ensures Fields(w + rest) == [w] + Fields(rest)
  {
    FieldsAfterWord(w, rest, []);
    assert [] + w == w;
    if rest != [] {
      assert FieldsAfter(rest, []) == FieldsAfter(rest[1..], []);
    }
  }

  /** Leading whitespace is skipped. */
  lemma FieldsSkip(c: char, rest: string)
    requires IsSpace(c)
    ensures Fields([c] + rest) == Fields(rest)
  {
    assert ([c] + rest)[1..] == rest;
  }


  function DigitChar(d: nat): char
    requires d < 10
  {
    ['0', '1', '2', '3', '4', '5', '6', '7', '8', '9'][d]
  }

  function DigitValue(c: char): (d: nat)
    requires IsDigit(c)
    ensures d < 10
  {
    (c as int - '0' as int) as nat
  }

  /** Python's `str(n)` for a non-negative integer. */
  function Decimal(n: nat): (r: string)
    ensures r != [] && AllDigits(r)
  {
    if n < 10 then [DigitChar(n)] else Decimal(n / 10) + [DigitChar(n % 10)]
  }

  /** Python's `int(s)` on a string of decimal digits (leading zeros allowed). */
  function ParseDecimal(s: string): nat
    requires AllDigits(s)
  {
    if s == [] then 0 else ParseDecimal(s[..|s| - 1]) * 10 + DigitValue(s[|s| - 1])
  }

  /** `int(str(n)) == n`. */
  lemma {:induction false} ParseDecimalOfDecimal(n: nat)
    ensures ParseDecimal(Decimal(n)) == n
  {
    if n >= 10 {
      var s := Decimal(n);
      assert s[..|s| - 1] == Decimal(n / 10);
      ParseDecimalOfDecimal(n / 10);
    }
  }

  /** Distinct numbers have distinct decimal renderings. */
  lemma DecimalInjective(m: nat, n: nat)
    requires Decimal(m) == Decimal(n)
    ensures m == n
  {
    ParseDecimalOfDecimal(m);
    ParseDecimalOfDecimal(n);
  }

  /** `os.path.join(a, b)` for two POSIX paths: an absolute `b` discards `a`. */
  function PathJoin(a: string, b: string): (r: string)
    ensures StartsWith(b, "/") ==> r == b
    ensures !StartsWith(b, "/") ==> EndsWith(r, b)
  {
    if StartsWith(b, "/") then b
    else if a == [] || EndsWith(a, "/") then a + b
    else a + "/" + b
  }

  /** `os.path.dirname(p)`: everything before the last separator, with
      trailing separators removed unless that leaves only separators. */
  function DirName(p: string): string {
    var head := p[..LastSep(p)];
    if head != [] && !AllSeps(head) then StripTrailingSeps(head) else head
  }

  function LastSep(p: string): (k: nat)
    ensures k <= |p|
    ensures k > 0 ==> p[k - 1] == '/'
  {
    if p == [] then 0 else if p[|p| - 1] == '/' then |p| else LastSep(p[..|p| - 1])
  }

  predicate AllSeps(s: string) { forall i :: 0 <= i < |s| ==> s[i] == '/' }

  function StripTrailingSeps(s: string): string {
    if s != [] && s[|s| - 1] == '/' then StripTrailingSeps(s[..|s| - 1]) else s
  }
}
