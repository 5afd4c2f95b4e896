/** The `.gitp_manifest` data model: child repository entries, the manifest
    that holds them, its validation when built from a loaded document, its
    serialisation back to a document, and overlay selection.
    (gitparent/gitp.py, class `Manifest` and its nested class `Repo`.) */
module ManifestModel {
  import opened Wrappers
  import opened Text
  import opened PyValue

  /** Attribute names of a `Repo`, in the order its initialiser creates them. */
  const FieldNames: seq<string> := ["url", "branch", "commit", "link", "link_newest", "link_filter", "type"]

  /** One child entry. Every attribute holds whatever the document held
      (`VNone` for Python `None`); `repoType` is the `type` attribute. */
  datatype Repo = Repo(url: Value, branch: Value, commit: Value, link: Value,
                       linkNewest: Value, linkFilter: Value, repoType: Value)

  /** A freshly initialised `Repo`: every attribute `None`. */
  const BlankRepo := Repo(VNone, VNone, VNone, VNone, VNone, VNone, VNone)

  /** `Repo.__eq__`: url, link and type agree, and either the branches agree
      or this entry has a non-empty commit that the other shares. */
  predicate RepoEq(a: Repo, b: Repo) {
    a.url == b.url
    && (a.branch == b.branch || (Truthy(a.commit) && a.commit == b.commit))
    && a.link == b.link
    && a.repoType == b.repoType
  }

  lemma RepoEqReflexive(a: Repo)
    ensures RepoEq(a, a)
  {
  }

  lemma RepoEqSymmetric(a: Repo, b: Repo)
    ensures RepoEq(a, b) <==> RepoEq(b, a)
  {
  }

  /** A shared pinned commit makes two entries equal whatever their
      branches, and without one the branches must agree. */
  lemma RepoEqCommitBeatsBranch(a: Repo, b: Repo)
    requires a.url == b.url && a.link == b.link && a.repoType == b.repoType
    ensures Truthy(a.commit) && a.commit == b.commit ==> RepoEq(a, b)
    ensures !Truthy(a.commit) ==> (RepoEq(a, b) <==> a.branch == b.branch)
  {
  }

  /** The relation is not transitive: two entries each equal to a third
      through different rules need not be equal to each other. */
  lemma RepoEqNotTransitive()
    ensures exists a: Repo, b: Repo, c: Repo :: RepoEq(a, b) && RepoEq(b, c) && !RepoEq(a, c)
  {
    var a := BlankRepo.(branch := VStr("dev"), commit := VStr("abc"));
    var b := BlankRepo.(branch := VStr("main"), commit := VStr("abc"));
    var c := BlankRepo.(branch := VStr("main"));
    assert RepoEq(a, b) && RepoEq(b, c) && !RepoEq(a, c);
  }

  /** The manifest's `lock_server` attribute: never set, set to the raw
      document string (the state left behind when that string is
      malformed), or parsed into a host and a port. */
  datatype LockSetting = NoLockServer | RawLockServer(raw: string) | LockServer(host: string, port: nat)

  datatype ManifestError =
    | MalformedLockServer(raw: string)
    | DuplicateEntry(child: string)
    | EntryNotMapping(child: string)
    | UnexpectedKeys(child: string, keys: set<string>)
    | MissingUrl(child: string)

  function IndexOf(s: string, c: char): (r: Option<nat>)
    ensures r.None? ==> c !in s
    ensures r.Some? ==> r.value < |s| && s[r.value] == c && c !in s[..r.value]
  {
    if s == [] then None
    else if s[0] == c then Some(0)
    else match IndexOf(s[1..], c)
      case None => None
      case Some(k) => assert s[..k + 1] == [s[0]] + s[1..][..k]; Some(k + 1)
  }

  /** The `^([^:]+):(\d+)$` match on the stripped string and `int` of the
      port: `None` when the string does not have that shape. */
  function ParseLockServer(raw: string): (r: Option<(string, nat)>)
    ensures r.Some? ==>
      var t := Strip(raw);
      exists k :: 0 < k < |t| - 1 && t[..k] == r.value.0 && ':' !in t[..k] && t[k] == ':'
                  && AllDigits(t[k + 1..]) && ParseDecimal(t[k + 1..]) == r.value.1
  {
    var t := Strip(raw);
    match IndexOf(t, ':')
    case None => None
    case Some(k) =>
      var host, port := t[..k], t[k + 1..];
      if host != [] && port != [] && AllDigits(port) then Some((host, ParseDecimal(port))) else None
  }

  /** A host without colons and surrounding whitespace, and a port written
      in decimal, read back as the same pair. */
  lemma {:induction false} ParseLockServerRoundTrip(host: string, port: nat)
    requires host != [] && ':' !in host && !IsSpace(host[0])
    ensures ParseLockServer(host + ":" + Decimal(port)) == Some((host, port))
  {
    var s := host + ":" + Decimal(port);
    var d := Decimal(port);
    assert !IsSpace(s[0]);
    assert LStrip(s) == s;
    assert IsDigit(s[|s| - 1]);
    assert RStrip(s) == s;
    assert Strip(s) == s;
    assert s[..|host|] == host && s[|host|] == ':';
    assert ':' !in s[..|host|];
    assert IndexOf(s, ':') == Some(|host|);
    assert s[|host| + 1..] == d;
    ParseDecimalOfDecimal(port);
  }

  /** Conversely, every stripped string of the form `<host>:<digits>` with a
      non-empty colon-free host is accepted, the port read in decimal. */
  lemma ParseLockServerAccepts(raw: string, k: nat)
    requires var t := Strip(raw);
      0 < k < |t| - 1 && ':' !in t[..k] && t[k] == ':' && AllDigits(t[k + 1..])
    ensures var t := Strip(raw); ParseLockServer(raw) == Some((t[..k], ParseDecimal(t[k + 1..])))
  {
    var t := Strip(raw);
    IndexOfFirst(t, ':', k);
    assert t[..k] != [] && t[k + 1..] != [];
  }

  /** The first occurrence is the one `IndexOf` finds. */
  lemma {:induction false} IndexOfFirst(s: string, c: char, k: nat)
    requires k < |s| && s[k] == c && c !in s[..k]
    ensures IndexOf(s, c) == Some(k)
  {
    if k > 0 {
      assert s[0] == s[..k][0];
      assert s[1..][..k - 1] == s[1..k];
      forall j | 0 <= j < k - 1 ensures s[1..k][j] != c {
        assert s[1..k][j] == s[..k][j + 1];
      }
      IndexOfFirst(s[1..], c, k - 1);
    }
  }

  /** The value part of a manifest document, with `repos` as a map and the
      insertion order of its keys. */
  datatype ManifestData = ManifestData(path: string, repos: map<string, Repo>, order: seq<string>,
                                       postClone: seq<Value>, postPull: seq<Value>, lockServer: LockSetting)
  {
    /** `order` lists each key of `repos` exactly once. */
    ghost predicate Valid() {
      (forall i, j :: 0 <= i < j < |order| ==> order[i] != order[j])
      && (forall k :: k in repos <==> k in order)
    }
  }

  /** The state of `Manifest(name, path)` before `populate` runs. */
  function Fresh(path: string): ManifestData {
    ManifestData(path, map[], [], [], [], NoLockServer)
  }

  /** One trailing separator of a child key is dropped. */
  function NormalizeChild(child: string): (r: string)
    ensures EndsWith(child, "/") ==> r + "/" == child
    ensures !EndsWith(child, "/") ==> r == child
  {
    if EndsWith(child, "/") then child[..|child| - 1] else child
  }

  /** `child_info.get(key, default)` */
  function GetOr(info: seq<(string, Value)>, key: string, default: Value): Value {
    match Lookup(info, key)
    case Some(v) => v
    case None => default
  }

  /** The entry `populate` builds from a child's mapping: missing `branch`
      becomes `master`, missing `type` becomes `repo`, any other missing
      attribute `None`; a key present with a null value stays `None`. */
  function EntryFrom(info: seq<(string, Value)>): Repo {
    Repo(GetOr(info, "url", VNone), GetOr(info, "branch", VStr("master")), GetOr(info, "commit", VNone),
         GetOr(info, "link", VNone), GetOr(info, "link_newest", VNone), GetOr(info, "link_filter", VNone),
         GetOr(info, "type", VStr("repo")))
  }

  /** Keys of a child's mapping that are not `Repo` attributes. */
  function UnknownKeys(info: seq<(string, Value)>): set<string> {
    set i | 0 <= i < |info| && info[i].0 !in FieldNames :: info[i].0
  }

  /** The unknown keys are exactly the keys of the mapping that name no attribute. */
  lemma UnknownKeysExactly(info: seq<(string, Value)>, k: string)
    ensures k in UnknownKeys(info) <==> HasKey(info, k) && k !in FieldNames
  {
    if HasKey(info, k) && k !in FieldNames {
      var i :| 0 <= i < |info| && info[i].0 == k;
      assert info[i].0 in UnknownKeys(info);
    }
  }

  /** A missing `branch` reads as `master`, a missing `type` as `repo`, and
      any other missing attribute as `None`. */
  lemma EntryFromDefaults(info: seq<(string, Value)>)
    ensures !HasKey(info, "branch") ==> EntryFrom(info).branch == VStr("master")
    ensures !HasKey(info, "type") ==> EntryFrom(info).repoType == VStr("repo")
    ensures !HasKey(info, "url") ==> EntryFrom(info).url == VNone
    ensures !HasKey(info, "commit") ==> EntryFrom(info).commit == VNone
    ensures !HasKey(info, "link") ==> EntryFrom(info).link == VNone
    ensures !HasKey(info, "link_newest") ==> EntryFrom(info).linkNewest == VNone
    ensures !HasKey(info, "link_filter") ==> EntryFrom(info).linkFilter == VNone
  {
  }

  /** A key present in the mapping is read as its value, even a `None` one. */
  lemma EntryFromPresent(info: seq<(string, Value)>, i: nat)
    requires DistinctKeys(info) && i < |info|
    ensures info[i].0 == "branch" ==> EntryFrom(info).branch == info[i].1
    ensures info[i].0 == "type" ==> EntryFrom(info).repoType == info[i].1
    ensures info[i].0 == "url" ==> EntryFrom(info).url == info[i].1
    ensures info[i].0 == "commit" ==> EntryFrom(info).commit == info[i].1
  {
    LookupDistinct(info, i);
  }

  /** What `populate` stores under one child key, and the exception it then
      raises, if any. The unknown-key check runs right after `url` is
      filled in, so an entry refused for unknown keys carries only its url;
      the url check takes effect once `type` (the last attribute) is set. */
  function ParseEntry(child: string, info: Value): (Repo, Option<ManifestError>) {
    match info
    case VDict(d) =>
      var unknown := UnknownKeys(d);
      if unknown != {} then (BlankRepo.(url := GetOr(d, "url", VNone)), Some(UnexpectedKeys(child, unknown)))
      else
        var e := EntryFrom(d);
        if !Truthy(e.url) && e.repoType == VStr("repo") then (e, Some(MissingUrl(child))) else (e, None)
    case _ => (BlankRepo, Some(EntryNotMapping(child)))
  }

  /** A child mapping `populate` accepts. */
  predicate AcceptableEntry(info: Value) {
    info.VDict? && UnknownKeys(info.entries) == {}
    && (Truthy(GetOr(info.entries, "url", VNone)) || GetOr(info.entries, "type", VStr("repo")) != VStr("repo"))
  }

  lemma ParseEntryAccepts(child: string, info: Value)
    ensures ParseEntry(child, info).1.None? <==> AcceptableEntry(info)
    ensures AcceptableEntry(info) ==> ParseEntry(child, info).0 == EntryFrom(info.entries)
  {
  }

  /** The `repos` loop of `populate` over the document's entries, from the
      given repos and key order: the final repos, order and exception. An
      exception stops the loop with the offending entry already stored
      (except for a duplicate, which is refused before it is stored). */
  function AddEntries(repos: map<string, Repo>, order: seq<string>, entries: seq<(string, Value)>)
    : (map<string, Repo>, seq<string>, Option<ManifestError>)
    decreases |entries|
  {
    if entries == [] then (repos, order, None)
    else
      var child := NormalizeChild(entries[0].0);
      if child in repos then (repos, order, Some(DuplicateEntry(child)))
      else
        var (e, err) := ParseEntry(child, entries[0].1);
        if err.Some? then (repos[child := e], order + [child], err)
        else AddEntries(repos[child := e], order + [child], entries[1..])
  }

  /** `populate` on a document (an already loaded top-level mapping),
      starting from manifest state `m`: the state it leaves and the
      exception it raises, if any. The lock server is read first, then the
      hook lists, then the child entries. */
  function Populated(doc: seq<(string, Value)>, m: ManifestData): (ManifestData, Option<ManifestError>) {
    var (m1, err) := LockStage(doc, m);
    if err.Some? then (m1, err) else ReposStage(doc, HookStage(doc, m1))
  }

  /** A string `lock_server` is stored raw, then parsed or refused; any
      other value is ignored. */
  function LockStage(doc: seq<(string, Value)>, m: ManifestData): (ManifestData, Option<ManifestError>) {
    match Lookup(doc, "lock_server")
    case Some(v) =>
      if v.VStr? then
        match ParseLockServer(v.s)
        case None => (m.(lockServer := RawLockServer(v.s)), Some(MalformedLockServer(v.s)))
        case Some(p) => (m.(lockServer := LockServer(p.0, p.1)), None)
      else (m, None)
    case None => (m, None)
  }

  /** List-valued `post_clone` and `post_pull` replace the hook lists. */
  function HookStage(doc: seq<(string, Value)>, m: ManifestData): ManifestData {
    var pc := Lookup(doc, "post_clone");
    var m1 := if pc.Some? && pc.value.VList? then m.(postClone := pc.value.items) else m;
    var pp := Lookup(doc, "post_pull");
    if pp.Some? && pp.value.VList? then m1.(postPull := pp.value.items) else m1
  }

  /** A mapping-valued `repos` runs the entry loop. */
  function ReposStage(doc: seq<(string, Value)>, m: ManifestData): (ManifestData, Option<ManifestError>) {
    var rs := Lookup(doc, "repos");
    if rs.Some? && rs.value.VDict? then
      var (repos, order, err) := AddEntries(m.repos, m.order, rs.value.entries);
      (m.(repos := repos, order := order), err)
    else (m, None)
  }

  /** One accepted entry: the loop stores it and carries on. */
  lemma AddEntriesStep(repos: map<string, Repo>, order: seq<string>, entries: seq<(string, Value)>)
    requires entries != [] && NormalizeChild(entries[0].0) !in repos
    requires ParseEntry(NormalizeChild(entries[0].0), entries[0].1).1.None?
    ensures var child := NormalizeChild(entries[0].0);
      AddEntries(repos, order, entries)
      == AddEntries(repos[child := ParseEntry(child, entries[0].1).0], order + [child], entries[1..])
  {
  }

  /** The loop keeps `order` a listing of the keys of `repos`. */
  lemma {:induction false} AddEntriesValid(repos: map<string, Repo>, order: seq<string>, entries: seq<(string, Value)>)
    requires ManifestData("", repos, order, [], [], NoLockServer).Valid()
    ensures var (r, o, _) := AddEntries(repos, order, entries); ManifestData("", r, o, [], [], NoLockServer).Valid()
    decreases |entries|
  {
    if entries != [] {
      var child := NormalizeChild(entries[0].0);
      if child !in repos {
        var e := ParseEntry(child, entries[0].1).0;
        assert ManifestData("", repos[child := e], order + [child], [], [], NoLockServer).Valid();
        AddEntriesValid(repos[child := e], order + [child], entries[1..]);
      }
    }
  }

  /** `populate` refuses exactly: a child mapping it does not accept, two
      keys equal once a trailing separator is dropped, or a key already
      present. */
  predicate EntriesAcceptable(repos: map<string, Repo>, entries: seq<(string, Value)>) {
    (forall i :: 0 <= i < |entries| ==> AcceptableEntry(entries[i].1))
    && (forall i :: 0 <= i < |entries| ==> NormalizeChild(entries[i].0) !in repos)
    && (forall i, j :: 0 <= i < j < |entries| ==> NormalizeChild(entries[i].0) != NormalizeChild(entries[j].0))
  }

  lemma {:induction false} AddEntriesSucceedsIff(repos: map<string, Repo>, order: seq<string>, entries: seq<(string, Value)>)
    ensures AddEntries(repos, order, entries).2.None? <==> EntriesAcceptable(repos, entries)
    decreases |entries|
  {
    if entries != [] {
      var child := NormalizeChild(entries[0].0);
      ParseEntryAccepts(child, entries[0].1);
      if child !in repos {
        var e := ParseEntry(child, entries[0].1).0;
        AddEntriesSucceedsIff(repos[child := e], order + [child], entries[1..]);
        if EntriesAcceptable(repos, entries) {
          assert EntriesAcceptable(repos[child := e], entries[1..]) by {
            forall i | 0 <= i < |entries[1..]|
              ensures NormalizeChild(entries[1..][i].0) !in repos[child := e]
            {
              assert entries[1..][i] == entries[i + 1];
            }
          }
        }
        if AddEntries(repos, order, entries).2.None? {
          var tail := entries[1..];
          assert EntriesAcceptable(repos[child := e], tail);
          forall i | 0 <= i < |entries| ensures AcceptableEntry(entries[i].1) && NormalizeChild(entries[i].0) !in repos {
            if i > 0 { assert entries[i] == tail[i - 1]; }
          }
          forall i, j | 0 <= i < j < |entries| ensures NormalizeChild(entries[i].0) != NormalizeChild(entries[j].0) {
            assert entries[j] == tail[j - 1];
            if i > 0 { assert entries[i] == tail[i - 1]; }
          }
        }
      }
    }
  }

  /** The child keys of the document's entries with one trailing separator dropped. */
  function ChildKeys(entries: seq<(string, Value)>): (r: seq<string>)
    ensures |r| == |entries| && forall i :: 0 <= i < |entries| ==> r[i] == NormalizeChild(entries[i].0)
  {
    if entries == [] then [] else [NormalizeChild(entries[0].0)] + ChildKeys(entries[1..])
  }

  /** A successful loop appends the normalised keys in document order. */
  lemma {:induction false} AddEntriesOrder(repos: map<string, Repo>, order: seq<string>, entries: seq<(string, Value)>)
    requires AddEntries(repos, order, entries).2.None?
    ensures AddEntries(repos, order, entries).1 == order + ChildKeys(entries)
    decreases |entries|
  {
    if entries != [] {
      var child := NormalizeChild(entries[0].0);
      var e := ParseEntry(child, entries[0].1).0;
      AddEntriesOrder(repos[child := e], order + [child], entries[1..]);
    }
  }

  /** A successful loop keeps the entries already present and stores,
      under each normalised key, the entry built from that key's mapping
      with its defaults; it stores nothing else. */
  lemma AddEntriesStores(repos: map<string, Repo>, order: seq<string>, entries: seq<(string, Value)>)
    requires AddEntries(repos, order, entries).2.None?
    ensures var r := AddEntries(repos, order, entries).0;
      && (forall k :: k in r <==> k in repos || k in ChildKeys(entries))
      && (forall k :: k in repos ==> r[k] == repos[k])
      && (forall i :: 0 <= i < |entries| ==> entries[i].1.VDict? && r[ChildKeys(entries)[i]] == EntryFrom(entries[i].1.entries))
  {
    AddEntriesKeeps(repos, order, entries);
    AddEntriesBuilds(repos, order, entries);
  }

  lemma AddEntriesKeeps(repos: map<string, Repo>, order: seq<string>, entries: seq<(string, Value)>)
    requires AddEntries(repos, order, entries).2.None?
    ensures var r := AddEntries(repos, order, entries).0;
      && (forall k :: k in r <==> k in repos || k in ChildKeys(entries))
      && (forall k :: k in repos ==> r[k] == repos[k])
  {
    AddEntriesDomain(repos, order, entries);
    AddEntriesPreserves(repos, order, entries);
  }

  /** A successful step: the entry is new and accepted, and the loop goes on. */
  lemma AddEntriesOk(repos: map<string, Repo>, order: seq<string>, entries: seq<(string, Value)>)
    requires entries != [] && AddEntries(repos, order, entries).2.None?
    ensures var child := NormalizeChild(entries[0].0);
      var e := ParseEntry(child, entries[0].1).0;
      && child !in repos && ParseEntry(child, entries[0].1).1.None?
      && AddEntries(repos, order, entries) == AddEntries(repos[child := e], order + [child], entries[1..])
  {
  }

  lemma {:induction false} AddEntriesDomain(repos: map<string, Repo>, order: seq<string>, entries: seq<(string, Value)>)
    requires AddEntries(repos, order, entries).2.None?
    ensures forall k :: k in AddEntries(repos, order, entries).0 <==> k in repos || k in ChildKeys(entries)
    decreases |entries|
  {
    if entries != [] {
      AddEntriesOk(repos, order, entries);
      var child := NormalizeChild(entries[0].0);
      var e := ParseEntry(child, entries[0].1).0;
      AddEntriesDomain(repos[child := e], order + [child], entries[1..]);
      assert ChildKeys(entries) == [child] + ChildKeys(entries[1..]);
    }
  }

  lemma {:induction false} AddEntriesPreserves(repos: map<string, Repo>, order: seq<string>, entries: seq<(string, Value)>)
    requires AddEntries(repos, order, entries).2.None?
    ensures forall k :: k in repos ==> k in AddEntries(repos, order, entries).0 && AddEntries(repos, order, entries).0[k] == repos[k]
    decreases |entries|
  {
    if entries != [] {
      AddEntriesOk(repos, order, entries);
      var child := NormalizeChild(entries[0].0);
      var e := ParseEntry(child, entries[0].1).0;
      AddEntriesPreserves(repos[child := e], order + [child], entries[1..]);
    }
  }

  lemma {:induction false} AddEntriesBuilds(repos: map<string, Repo>, order: seq<string>, entries: seq<(string, Value)>)
    requires AddEntries(repos, order, entries).2.None?
    ensures var r := AddEntries(repos, order, entries).0;
      forall i :: 0 <= i < |entries| ==> entries[i].1.VDict? && ChildKeys(entries)[i] in r && r[ChildKeys(entries)[i]] == EntryFrom(entries[i].1.entries)
    decreases |entries|
  {
    if entries != [] {
      var child := NormalizeChild(entries[0].0);
      var e := ParseEntry(child, entries[0].1).0;
      ParseEntryAccepts(child, entries[0].1);
      var tail := entries[1..];
      AddEntriesBuilds(repos[child := e], order + [child], tail);
      AddEntriesKeeps(repos[child := e], order + [child], tail);
      var r := AddEntries(repos, order, entries).0;
      assert ChildKeys(entries) == [child] + ChildKeys(tail);
      forall i | 0 <= i < |entries|
        ensures entries[i].1.VDict? && ChildKeys(entries)[i] in r && r[ChildKeys(entries)[i]] == EntryFrom(entries[i].1.entries)
      {
        if i > 0 { assert entries[i] == tail[i - 1]; }
      }
    }
  }

  /** The `lock_server` outcome of `populate`: a string is kept parsed or
      refused, anything else leaves the setting alone. */
  lemma PopulateLockServer(doc: seq<(string, Value)>, m: ManifestData, s: string)
    requires Lookup(doc, "lock_server") == Some(VStr(s))
    ensures ParseLockServer(s).None? ==> Populated(doc, m) == (m.(lockServer := RawLockServer(s)), Some(MalformedLockServer(s)))
    ensures ParseLockServer(s).Some? ==>
      Populated(doc, m).0.lockServer == LockServer(ParseLockServer(s).value.0, ParseLockServer(s).value.1)
  {
    var (m1, err) := LockStage(doc, m);
    if err.None? {
      assert HookStage(doc, m1).lockServer == m1.lockServer;
      assert ReposStage(doc, HookStage(doc, m1)).0.lockServer == m1.lockServer;
    }
  }

  /** The attributes of an entry, named and in attribute order. */
  function Attributes(r: Repo): seq<(string, Value)> {
    [("url", r.url), ("branch", r.branch), ("commit", r.commit), ("link", r.link),
     ("link_newest", r.linkNewest), ("link_filter", r.linkFilter), ("type", r.repoType)]
  }

  /** `as_dict` of one entry: its non-`None` attributes in attribute order. */
  function RepoDict(r: Repo): seq<(string, Value)> {
    NonNone(Attributes(r))
  }

  function NonNone(d: seq<(string, Value)>): (r: seq<(string, Value)>)
    ensures forall p :: p in r ==> p in d
  {
    if d == [] then [] else if d[0].1 == VNone then NonNone(d[1..]) else [d[0]] + NonNone(d[1..])
  }

  /** Dropping `None` attributes hides exactly those keys. */
  lemma {:induction false} NonNoneLookup(d: seq<(string, Value)>, k: string)
    ensures Lookup(NonNone(d), k) == if Lookup(d, k) == Some(VNone) then Lookup(NonNone(d[1..]), k) else Lookup(d, k)
    ensures DistinctKeys(d) && Lookup(d, k) == Some(VNone) ==> Lookup(NonNone(d), k) == None
  {
    if d != [] {
      NonNoneLookup(d[1..], k);
      if DistinctKeys(d) && d[0].0 == k {
        assert !HasKey(d[1..], k);
        assert Lookup(d[1..], k) == None;
        assert !HasKey(NonNone(d[1..]), k);
      }
      if DistinctKeys(d) && d[0].0 != k {
        assert DistinctKeys(d[1..]) by {
          forall a, b | 0 <= a < b < |d[1..]| ensures d[1..][a].0 != d[1..][b].0 {
            assert d[1..][a] == d[a + 1] && d[1..][b] == d[b + 1];
          }
        }
      }
    }
  }

  /** The attribute names written for an entry, so `populate` finds no unknown key. */
  lemma RepoDictNoUnknownKeys(r: Repo)
    ensures UnknownKeys(RepoDict(r)) == {}
  {
    var d := RepoDict(r);
    forall i | 0 <= i < |d| ensures d[i].0 in FieldNames {
      assert d[i] in Attributes(r);
    }
  }

  /** An entry survives `as_dict` followed by `populate` unchanged when its
      `branch` and `type` are set and it would have passed validation. */
  predicate Reloadable(r: Repo) {
    r.branch != VNone && r.repoType != VNone && (Truthy(r.url) || r.repoType != VStr("repo"))
  }

  lemma RepoDictReload(child: string, r: Repo)
    requires Reloadable(r)
    ensures ParseEntry(child, VDict(RepoDict(r))) == (r, None)
  {
    RepoDictNoUnknownKeys(r);
    RepoDictEntry(r);
  }

  /** Reading one written attribute back gives its value, or the default
      when it was `None` and so not written. */
  lemma AttributeReload(r: Repo, i: nat, default: Value)
    requires i < 7
    requires Attributes(r)[i].1 == VNone ==> default == VNone
    ensures GetOr(RepoDict(r), Attributes(r)[i].0, default) == Attributes(r)[i].1
  {
    var a := Attributes(r);
    assert DistinctKeys(a);
    LookupDistinct(a, i);
    NonNoneLookup(a, a[i].0);
  }

  /** Reading back the written attributes restores every attribute, given
      that `branch` and `type`, whose defaults are not `None`, were set. */
  lemma RepoDictEntry(r: Repo)
    requires r.branch != VNone && r.repoType != VNone
    ensures EntryFrom(RepoDict(r)) == r
  {
    AttributeReload(r, 0, VNone);
    AttributeReload(r, 1, VStr("master"));
    AttributeReload(r, 2, VNone);
    AttributeReload(r, 3, VNone);
    AttributeReload(r, 4, VNone);
    AttributeReload(r, 5, VNone);
    AttributeReload(r, 6, VStr("repo"));
  }

  /** `Manifest.as_dict`: only `repos` is emitted, in key order. */
  function AsDict(m: ManifestData): seq<(string, Value)>
    requires m.Valid()
  {
    [("repos", VDict(EntryDicts(m.repos, m.order)))]
  }

  /** The written form of the entries stored under `keys`, in that order. */
  function EntryDicts(repos: map<string, Repo>, keys: seq<string>): seq<(string, Value)>
    requires forall k :: k in keys ==> k in repos
  {
    if keys == [] then [] else [(keys[0], VDict(RepoDict(repos[keys[0]])))] + EntryDicts(repos, keys[1..])
  }

  /** Writing a manifest and reading it back (`as_dict`, then `populate` on a
      fresh manifest) restores `repos` and its order, and resets
      `post_clone`, `post_pull` and `lock_server`, which are not written. */
  lemma AsDictRoundTrip(m: ManifestData)
    requires m.Valid()
    requires forall k :: k in m.repos ==> Reloadable(m.repos[k]) && !EndsWith(k, "/")
    ensures Populated(AsDict(m), Fresh(m.path)) == (ManifestData(m.path, m.repos, m.order, [], [], NoLockServer), None)
  {
    var doc := AsDict(m);
    var f := Fresh(m.path);
    assert Lookup(doc, "lock_server") == None;
    assert LockStage(doc, f) == (f, None);
    assert Lookup(doc, "post_clone") == None && Lookup(doc, "post_pull") == None;
    assert HookStage(doc, f) == f;
    assert Lookup(doc, "repos") == Some(VDict(EntryDicts(m.repos, m.order)));
    ReloadEntries(m, map[], [], m.order);
  }

  /** Re-reading the written entries for the keys still to come, from a
      state holding exactly the keys before them, ends in `m`'s entries. */
  lemma {:induction false} ReloadEntries(m: ManifestData, repos: map<string, Repo>, order: seq<string>, keys: seq<string>)
    requires m.Valid()
    requires forall k :: k in m.repos ==> Reloadable(m.repos[k]) && !EndsWith(k, "/")
    requires order + keys == m.order
    requires forall k :: k in repos <==> k in order
    requires forall k :: k in repos ==> repos[k] == m.repos[k]
    ensures AddEntries(repos, order, EntryDicts(m.repos, keys)) == (m.repos, m.order, None)
    decreases |keys|
  {
    if keys == [] {
      assert order == m.order;
      assert repos == m.repos;
    } else {
      var child := keys[0];
      var entries := EntryDicts(m.repos, keys);
      ReloadNext(m, order, keys);
      EntryDictsSplit(m.repos, keys);
      assert NormalizeChild(child) == child;
      RepoDictReload(child, m.repos[child]);
      AddEntriesStep(repos, order, entries);
      ReloadEntries(m, repos[child := m.repos[child]], order + [child], keys[1..]);
    }
  }

  /** The first written entry is the first key's, followed by the rest. */
  lemma EntryDictsSplit(repos: map<string, Repo>, keys: seq<string>)
    requires keys != [] && forall k :: k in keys ==> k in repos
    ensures EntryDicts(repos, keys)[0] == (keys[0], VDict(RepoDict(repos[keys[0]])))
    ensures EntryDicts(repos, keys)[1..] == EntryDicts(repos, keys[1..])
  {
    var rest := EntryDicts(repos, keys[1..]);
    assert EntryDicts(repos, keys) == [(keys[0], VDict(RepoDict(repos[keys[0]])))] + rest;
  }

  /** The next key to re-read is not among the keys read so far. */
  lemma ReloadNext(m: ManifestData, order: seq<string>, keys: seq<string>)
    requires m.Valid()
    requires order + keys == m.order && keys != []
    ensures keys[0] !in order && keys[0] in m.repos
    ensures (order + [keys[0]]) + keys[1..] == m.order
  {
    var child := keys[0];
    assert m.order[|order|] == child;
    forall j | 0 <= j < |order| ensures order[j] != child {
      assert m.order[j] == order[j];
    }
  }

  /** `get_overlays` over the first `n` entries: entries whose type is
      `overlay`, keyed by the manifest's directory joined with the child
      key (a later key that joins to the same path overwrites the value). */
  function OverlaysUpTo(m: ManifestData, n: nat): seq<(string, Repo)>
    requires m.Valid() && n <= |m.order|
  {
    if n == 0 then []
    else
      var acc := OverlaysUpTo(m, n - 1);
      var child := m.order[n - 1];
      if m.repos[child].repoType == VStr("overlay") then DictSet(acc, PathJoin(DirName(m.path), child), m.repos[child])
      else acc
  }

  /** `Manifest.get_overlays` */
  function Overlays(m: ManifestData): seq<(string, Repo)>
    requires m.Valid()
  {
    OverlaysUpTo(m, |m.order|)
  }

  /** Entry `i` of `m` is an overlay whose child key joins to `p`. */
  ghost predicate OverlayAt(m: ManifestData, i: int, p: string)
    requires m.Valid()
  {
    0 <= i < |m.order| && m.repos[m.order[i]].repoType == VStr("overlay") && PathJoin(DirName(m.path), m.order[i]) == p
  }

  /** A path is an overlay key exactly when some overlay entry's child key
      joins to it. */
  lemma {:induction false} OverlaysExactly(m: ManifestData, n: nat, p: string)
    requires m.Valid() && n <= |m.order|
    ensures Lookup(OverlaysUpTo(m, n), p).Some? <==> exists i :: 0 <= i < n && OverlayAt(m, i, p)
  {
    if n > 0 {
      OverlaysExactly(m, n - 1, p);
      var acc := OverlaysUpTo(m, n - 1);
      var child := m.order[n - 1];
      var key := PathJoin(DirName(m.path), child);
      if m.repos[child].repoType == VStr("overlay") {
        DictSetLookup(acc, key, m.repos[child], p);
      }
      if Lookup(OverlaysUpTo(m, n), p).Some? {
        if OverlayAt(m, n - 1, p) {
        } else {
          var i :| 0 <= i < n - 1 && OverlayAt(m, i, p);
          assert 0 <= i < n && OverlayAt(m, i, p);
        }
      }
      if exists i :: 0 <= i < n && OverlayAt(m, i, p) {
        var i :| 0 <= i < n && OverlayAt(m, i, p);
        if i < n - 1 {
          assert exists i :: 0 <= i < n - 1 && OverlayAt(m, i, p);
        }
      }
    }
  }

  /** Every entry stored under an overlay key is an overlay entry. */
  lemma {:induction false} OverlaysAreOverlays(m: ManifestData, n: nat, p: string)
    requires m.Valid() && n <= |m.order|
    ensures Lookup(OverlaysUpTo(m, n), p).Some? ==> Lookup(OverlaysUpTo(m, n), p).value.repoType == VStr("overlay")
  {
    if n > 0 {
      OverlaysAreOverlays(m, n - 1, p);
      var child := m.order[n - 1];
      if m.repos[child].repoType == VStr("overlay") {
        DictSetLookup(OverlaysUpTo(m, n - 1), PathJoin(DirName(m.path), child), m.repos[child], p);
      }
    }
  }

  /** An overlay key holds the entry of the last overlay child whose key
      joins to it: a later overlay with the same path replaces an earlier
      one in the dictionary. */
  lemma {:induction false} OverlaysValue(m: ManifestData, n: nat, p: string, i: nat)
    requires m.Valid() && n <= |m.order| && i < n && OverlayAt(m, i, p)
    requires forall j :: i < j < n ==> !OverlayAt(m, j, p)
    ensures Lookup(OverlaysUpTo(m, n), p) == Some(m.repos[m.order[i]])
  {
    var acc := OverlaysUpTo(m, n - 1);
    var child := m.order[n - 1];
    var key := PathJoin(DirName(m.path), child);
    if i == n - 1 {
      DictSetLookup(acc, key, m.repos[child], p);
    } else {
      OverlaysValue(m, n - 1, p, i);
      assert !OverlayAt(m, n - 1, p);
      if m.repos[child].repoType == VStr("overlay") {
        assert key != p;
        DictSetLookup(acc, key, m.repos[child], p);
      }
    }
  }

  /** Overlay keys are distinct paths. */
  lemma {:induction false} OverlaysDistinct(m: ManifestData, n: nat)
    requires m.Valid() && n <= |m.order|
    ensures DistinctKeys(OverlaysUpTo(m, n))
  {
    if n > 0 {
      OverlaysDistinct(m, n - 1);
      var acc := OverlaysUpTo(m, n - 1);
      var child := m.order[n - 1];
      if m.repos[child].repoType == VStr("overlay") {
        DictSetDistinct(acc, PathJoin(DirName(m.path), child), m.repos[child]);
      }
    }
  }

  lemma {:induction false} DictSetDistinct<V>(d: seq<(string, V)>, k: string, v: V)
    requires DistinctKeys(d)
    ensures DistinctKeys(DictSet(d, k, v))
  {
    var r := DictSet(d, k, v);
    var kr := Keys(r);
    var kd := Keys(d);
    DictSetKeys(d, k, v);
    if HasKey(d, k) {
      assert kr == kd;
    } else {
      assert kr == kd + [k];
      forall i | 0 <= i < |d| ensures d[i].0 != k { }
    }
    forall i, j | 0 <= i < j < |r| ensures r[i].0 != r[j].0 {
      assert kr[i] == r[i].0 && kr[j] == r[j].0;
    }
  }

  /** `Manifest`: a manifest object whose `repos` dictionary and hook lists
      are updated in place. */
  class Manifest {
    var path: string
    var repos: map<string, Repo>
    var order: seq<string>
    var postClone: seq<Value>
    var postPull: seq<Value>
    var lockServer: LockSetting

    function Data(): ManifestData
      reads this
    {
      ManifestData(path, repos, order, postClone, postPull, lockServer)
    }

    ghost predicate Valid()
      reads this
    {
      Data().Valid()
    }

    constructor (path: string)
      ensures Valid() && Data() == Fresh(path)
    {
      this.path := path;
      repos := map[];
      order := [];
      postClone := [];
      postPull := [];
      lockServer := NoLockServer;
    }

    /** `Manifest.populate`: reads the document's settings, then stores its
        child entries one by one, raising at the first refused entry with
        the entries seen so far (and the refused one) already stored. */
    method Populate(doc: seq<(string, Value)>) returns (err: Option<ManifestError>)
      requires Valid()
      modifies this
      ensures Valid()
      ensures (Data(), err) == Populated(doc, old(Data()))
    {
      var lock := Lookup(doc, "lock_server");
      if lock.Some? && lock.value.VStr? {
        lockServer := RawLockServer(lock.value.s);
        var parsed := ParseLockServer(lock.value.s);
        if parsed.None? {
          return Some(MalformedLockServer(lock.value.s));
        }
        lockServer := LockServer(parsed.value.0, parsed.value.1);
      }
      assert (Data(), None) == LockStage(doc, old(Data()));
      var pc := Lookup(doc, "post_clone");
      if pc.Some? && pc.value.VList? {
        postClone := pc.value.items;
      }
      var pp := Lookup(doc, "post_pull");
      if pp.Some? && pp.value.VList? {
        postPull := pp.value.items;
      }
      assert Data() == HookStage(doc, LockStage(doc, old(Data())).0);
      var rs := Lookup(doc, "repos");
      err := None;
      if rs.Some? && rs.value.VDict? {
        err := AddAll(rs.value.entries);
      }
    }

    /** The `repos` loop of `populate`. */
    method AddAll(entries: seq<(string, Value)>) returns (err: Option<ManifestError>)
      requires Valid()
      modifies this
      ensures Valid()
      ensures (repos, order, err) == AddEntries(old(repos), old(order), entries)
      ensures path == old(path) && postClone == old(postClone) && postPull == old(postPull) && lockServer == old(lockServer)
    {
      var i := 0;
      while i < |entries|
        invariant 0 <= i <= |entries|
        invariant Valid()
        invariant AddEntries(repos, order, entries[i..]) == AddEntries(old(repos), old(order), entries)
        invariant path == old(path) && postClone == old(postClone) && postPull == old(postPull) && lockServer == old(lockServer)
      {
        var child := NormalizeChild(entries[i].0);
        if child in repos {
          return Some(DuplicateEntry(child));
        }
        var (e, problem) := ParseEntry(child, entries[i].1);
        AddEntriesValid(repos, order, [entries[i]]);
        repos := repos[child := e];
        order := order + [child];
        if problem.Some? {
          return problem;
        }
        assert entries[i..][1..] == entries[i + 1..];
        i := i + 1;
      }
      assert entries[i..] == [];
      return None;
    }

    /** `Manifest.__setitem__`: an existing key keeps its position. */
    method SetItem(key: string, item: Repo)
      requires Valid()
      modifies this
      ensures Valid()
      ensures repos == old(repos)[key := item]
      ensures order == if key in old(repos) then old(order) else old(order) + [key]
      ensures path == old(path) && postClone == old(postClone) && postPull == old(postPull) && lockServer == old(lockServer)
    {
      if key !in repos {
        order := order + [key];
      }
      repos := repos[key := item];
    }

    /** `Manifest.pop`: removes and returns an entry; a missing key raises
        `KeyError` (`None` here) and changes nothing. */
    method Pop(key: string) returns (r: Option<Repo>)
      requires Valid()
      modifies this
      ensures Valid()
      ensures key in old(repos) ==> r == Some(old(repos)[key]) && repos == old(repos) - {key}
      ensures key in old(repos) ==> order == RemoveKey(old(order), key)
      ensures key !in old(repos) ==> r == None && repos == old(repos) && order == old(order)
      ensures path == old(path) && postClone == old(postClone) && postPull == old(postPull) && lockServer == old(lockServer)
    {
      if key !in repos {
        return None;
      }
      r := Some(repos[key]);
      RemoveKeyDistinct(order, key);
      repos := repos - {key};
      order := RemoveKey(order, key);
    }
  }

  /** `order` without `key`, the rest in their order. */
  function RemoveKey(order: seq<string>, key: string): (r: seq<string>)
    ensures forall k :: k in r <==> k in order && k != key
  {
    if order == [] then [] else if order[0] == key then RemoveKey(order[1..], key) else [order[0]] + RemoveKey(order[1..], key)
  }

  lemma {:induction false} RemoveKeyDistinct(order: seq<string>, key: string)
    requires forall i, j :: 0 <= i < j < |order| ==> order[i] != order[j]
    ensures forall i, j :: 0 <= i < j < |RemoveKey(order, key)| ==> RemoveKey(order, key)[i] != RemoveKey(order, key)[j]
  {
    if order != [] {
      var tail := order[1..];
      RemoveKeyDistinct(tail, key);
      forall j | 0 <= j < |tail| ensures tail[j] != order[0] {
        assert tail[j] == order[j + 1];
      }
      var r := RemoveKey(order, key);
      var rt := RemoveKey(tail, key);
      if order[0] != key {
        assert r == [order[0]] + rt;
        forall i, j | 0 <= i < j < |r| ensures r[i] != r[j] {
          assert r[j] == rt[j - 1] && r[j] in rt;
          if i > 0 { assert r[i] == rt[i - 1]; }
        }
      }
    }
  }
}
