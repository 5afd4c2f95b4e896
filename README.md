# gitparent core, modelled in Dafny

gitparent (`gitp`) manages a tree of nested git repositories. Each repository
may carry a `.gitp_manifest` that lists its child repositories (url, branch or
pinned commit, an optional link, and a type that is `repo` or `overlay`) plus
`post_clone`/`post_pull` hook commands and an optional lock server. The
commands walk that tree recursively. The modules here model the part of
`gitparent/gitp.py` with decisions in it. Everything git or the disk answers
is an input to these modules.

- `ManifestModel` (manifest.dfy): `Manifest` and `Manifest.Repo`.
  - `Repo.__eq__`.
  - The lock-server string parse.
  - `populate`, as a class method over a parsed document (defaults, trailing-separator normalisation, the checks that raise).
  - `as_dict`.
  - `get_overlays`.
  - `__setitem__` and `pop`.
- `Alignment` (alignment.dfy): the per-child rule of `check_for_state_match`, which decides NONEXISTENT, UNLINKED or UNALIGNED. A pinned commit takes precedence over the branch.
- `PullSync` (pull.dfy): `pull.work` as a function that produces a trace of abstract events, and the top level of `pull`. It covers:
  - the overlay-target skip;
  - the target filter;
  - the choice between Pulling, Cloning, Linking and Copying;
  - the refusals on local or stashed changes;
  - the link, pull and clone steps and their failures;
  - the recursion into children in manifest order;
  - the hook choice;
  - `GITP_PARENT_REPO`;
  - applying the overlays after the whole walk.
- `PullWalk` (puller.dfy): the same walk written imperatively. The `Puller` object keeps `overlay_entries` and the trace as fields, and its methods are proved against the `PullSync` functions.
- `Remotes` (remotes.dfy): parsing of `git remote -v` output, as a loop proved against a function, with a round trip from a list of remotes.
- `CommandLine` (args.dfy): `args_to_str`, and the `shlex.split` reading its output gets.
- `Stash` and `StashSelect` (stash.dfy, stash_select.dfy): stash bookkeeping.
  - `is_gitp_stash`.
  - `update_stash_pos`, as an in-place rewrite of the stash file's lines.
  - Reading the `stash` arguments.
  - The validation and selection loop over `.gitp_stashes`.
  - The fresh-id loop.
- `Status` (status.dfy): the `status_cnt` tally, the closing report and the exit code of `status`.
- `Exec` (exec.dfy): target and filter resolution in `exec`. The `work` walk shares `args.tgt` and `command_targets` and is written as methods of an `Executor` object, proved against a function.
- `Text`, `PyValue` and `Wrappers`: string helpers that behave like Python's `strip`, `split` and `os.path.join`, ordered dictionaries, and `Option`/`Result`.

Python dictionaries keep insertion order. A parsed YAML mapping is therefore an
association list `seq<(string, Value)>` with distinct keys. The manifest's
`repos` is a `map` plus an `order` of its keys.

## Model

| member | source | states |
|---|---|---|
| ManifestModel.RepoEqReflexive | gitparent/gitp.py:72-75 | every entry equals itself |
| ManifestModel.RepoEqSymmetric | gitparent/gitp.py:72-75 | entry equality is symmetric |
| ManifestModel.RepoEqCommitBeatsBranch | gitparent/gitp.py:72-75 | if url, link and type agree: a shared non-empty commit makes two entries equal whatever their branches; without a commit they are equal exactly when the branches are |
| ManifestModel.RepoEqNotTransitive | gitparent/gitp.py:72-75 | three entries exist with a == b and b == c but not a == c, so `__eq__` is not an equivalence |
| ManifestModel.IndexOf | gitparent/gitp.py:169 | the first position of a character, or None exactly when it is absent |
| ManifestModel.ParseLockServerRoundTrip | gitparent/gitp.py:167-173 | `host:port` with a colon-free host reads back as `(host, port)` |
| ManifestModel.ParseLockServerAccepts | gitparent/gitp.py:167-173 | a stripped string with a non-empty colon-free head, a colon and a non-empty digit tail is accepted as `(head, int(tail))` |
| ManifestModel.NormalizeChild | gitparent/gitp.py:180-181 | one trailing separator is removed from a child key, and a key without one is unchanged |
| ManifestModel.UnknownKeysExactly | gitparent/gitp.py:193-195 | a key is reported unknown exactly when the entry has it and it is not a `Repo` attribute |
| ManifestModel.EntryFromDefaults | gitparent/gitp.py:186-192 | a missing `branch` becomes `master`, a missing `type` becomes `repo`, and every other missing attribute becomes None |
| ManifestModel.EntryFromPresent | gitparent/gitp.py:186-192 | an attribute the entry gives is stored as given |
| ManifestModel.ParseEntryAccepts | gitparent/gitp.py:184-197 | an entry raises nothing exactly when it is a mapping with no unknown key and it has a truthy url or a type other than `repo`; an accepted entry is stored with its defaults applied |
| ManifestModel.AddEntriesValid | gitparent/gitp.py:178-197 | the entry loop keeps `repos` and its key order in step |
| ManifestModel.AddEntriesSucceedsIff | gitparent/gitp.py:178-197 | the loop raises nothing exactly when every entry is acceptable and the normalised keys are new and distinct |
| ManifestModel.ChildKeys | gitparent/gitp.py:180-181 | the normalised keys of the entries, position by position |
| ManifestModel.AddEntriesOrder | gitparent/gitp.py:178-183 | after a successful loop, the key order is the old order followed by the normalised keys in document order |
| ManifestModel.AddEntriesDomain | gitparent/gitp.py:178-183 | after a successful loop, the keys are the old keys plus the normalised document keys |
| ManifestModel.AddEntriesPreserves | gitparent/gitp.py:178-183 | after a successful loop, entries that were already there are unchanged |
| ManifestModel.AddEntriesStores | gitparent/gitp.py:178-192 | after a successful loop, each document entry is stored under its normalised key with its defaults applied |
| ManifestModel.AddEntriesKeeps | gitparent/gitp.py:178-183 | after a successful loop, entries that were already there are still stored |
| ManifestModel.AddEntriesOk | gitparent/gitp.py:178-192 | a successful loop stores the first entry under its normalised key |
| ManifestModel.AddEntriesBuilds | gitparent/gitp.py:178-192 | a successful loop stores exactly the old entries and the parsed document entries |
| ManifestModel.PopulateLockServer | gitparent/gitp.py:167-173 | a malformed string `lock_server` is kept raw and raises; a well-formed one is stored as `(host, port)` and the rest of `populate` runs |
| ManifestModel.NonNone | gitparent/gitp.py:136 | the filtered dict keeps only pairs of the original |
| ManifestModel.NonNoneLookup | gitparent/gitp.py:136 | looking a key up in the filtered dict gives its value, or nothing when the value was None |
| ManifestModel.RepoDictNoUnknownKeys | gitparent/gitp.py:132-137 | the written form of an entry has only `Repo` attributes as keys |
| ManifestModel.RepoDictReload | gitparent/gitp.py:132-137 | an entry with a branch and a type, and with a url or a non-`repo` type, is read back from its written form unchanged and without an exception |
| ManifestModel.AttributeReload | gitparent/gitp.py:186-192 | each attribute is read back from the written form |
| ManifestModel.RepoDictEntry | gitparent/gitp.py:186-192 | an entry with a branch and a type is rebuilt exactly from its written form |
| ManifestModel.AsDictRoundTrip | gitparent/gitp.py:132-197 | populating a fresh manifest from `as_dict(m)` gives back the same `repos` in the same order, with empty hook lists and no lock server, and raises nothing |
| ManifestModel.ReloadEntries | gitparent/gitp.py:178-197 | reloading the written entries from any prefix of the order rebuilds the whole `repos` and order |
| ManifestModel.OverlaysExactly | gitparent/gitp.py:119-130 | a path is an overlay key exactly when some entry of type `overlay` has a child key that joins the manifest directory to that path |
| ManifestModel.OverlaysAreOverlays | gitparent/gitp.py:119-130 | every value `get_overlays` returns has type `overlay` |
| ManifestModel.OverlaysValue | gitparent/gitp.py:119-130 | an overlay path maps to the entry of the last overlay child whose key joins to that path |
| ManifestModel.OverlaysDistinct | gitparent/gitp.py:119-130 | `get_overlays` has no duplicate key |
| ManifestModel.Manifest.constructor | gitparent/gitp.py:77-95 | a new manifest has no entries, no hooks and no lock server |
| ManifestModel.Manifest.Populate | gitparent/gitp.py:158-197 | the new state and the exception raised are those of the populate function |
| ManifestModel.Manifest.AddAll | gitparent/gitp.py:178-197 | the entry loop updates `repos` and the order as the entry-loop function does, and nothing else |
| ManifestModel.Manifest.SetItem | gitparent/gitp.py:101-102 | the key maps to the item; a new key goes to the end of the order, and an existing key keeps its place |
| ManifestModel.Manifest.Pop | gitparent/gitp.py:113-114 | a present key is removed, and the removed entry is returned; an absent key changes nothing |
| ManifestModel.RemoveKey | gitparent/gitp.py:113-114 | the order without the popped key |
| ManifestModel.RemoveKeyDistinct | gitparent/gitp.py:113-114 | removing a key keeps the order free of duplicates |
| Alignment.ChildState | gitparent/gitp.py:547-574 | the state of one child, case by case. For a linked entry: missing or empty and not a link is NONEXISTENT, a real directory is UNLINKED, and a link elsewhere is UNALIGNED. For an ordinary entry: not a non-empty real directory is NONEXISTENT; with a commit, UNALIGNED exactly when the current commit does not start with it; without one, UNALIGNED exactly when the branch differs |
| Alignment.EmptyCommitFallsBackToBranch | gitparent/gitp.py:571-574 | an empty recorded commit is not a pin: the branch decides |
| Alignment.PinnedCommitIgnoresBranch | gitparent/gitp.py:567-574 | with a pinned commit the recorded branch does not matter: entries that differ only in branch get the same state |
| PullSync.SoleTargetProcessesOne | gitparent/gitp.py:1343-1348 | a target without a trailing separator and without `--local` lets exactly one path through: the top root joined with the target |
| PullSync.NoTargetProcessesAll | gitparent/gitp.py:1343-1344 | without a target no node is skipped |
| PullSync.RecursiveTargetCoversChildren | gitparent/gitp.py:1349-1351 | with a target ending in a separator, every child of a processed node is processed |
| PullSync.JoinKeepsPrefix | gitparent/gitp.py:1350 | joining a relative key keeps a path prefix |
| PullSync.Chosen | gitparent/gitp.py:1366-1390 | a link is Linking, or Copying under `--local`; anything else with a non-empty directory or a link at its path is Pulling, and otherwise Cloning |
| PullSync.Refusal | gitparent/gitp.py:1368-1381 | for a pinned commit, or a link over a real directory: local changes, or stashed changes of a link, raise without `--force`, and local changes are reported first |
| PullSync.LinkWork | gitparent/gitp.py:1389-1408 | the link step starts with its operation. It succeeds exactly when the link resolves to a directory or `--force` is given, and no regular file sits where a resolved link goes. That file raises `FileExistsError` |
| PullSync.Cleanup | gitparent/gitp.py:1451-1452 | a directory is removed after a failed update exactly when it did not exist before |
| PullSync.PullRepo | gitparent/gitp.py:1418-1453 | a failed `git pull` is reported exactly when it fails, and the walk goes on; independently of that, the pull raises exactly when the following checkout or reset fails, and otherwise ends in that checkout or reset |
| PullSync.CloneRepo | gitparent/gitp.py:1426-1453 | a clone raises exactly when the clone or the checkout fails, or when a set-url or fetch fails after cloning from another source; after an update failure the new directory is cleaned up |
| PullSync.OwnWork | gitparent/gitp.py:1353-1453 | a refusal raises before anything is done; otherwise the node's own work starts with the chosen operation. For an entry that is not a link, `makedirs` raises `FileExistsError` exactly when a regular file or a dangling link is at the path |
| PullSync.HooksRunInOrder | gitparent/gitp.py:1473-1475 | hooks run in the order the list gives, each in the repository's own directory |
| PullSync.OwnWorkAtNode | gitparent/gitp.py:1353-1453 | every event of a node's own work is at that node's path |
| PullSync.Work | gitparent/gitp.py:1320 | every visit first sets `GITP_PARENT_REPO` |
| PullSync.Descend | gitparent/gitp.py:1464-1468 | a link's children are never visited |
| PullSync.ChildrenStep | gitparent/gitp.py:1466-1468 | each child is visited with its manifest key joined to the parent path, in manifest order |
| PullSync.ChildrenAdvance | gitparent/gitp.py:1466-1468 | the children's walk advances one child at a time, carrying the overlays |
| PullSync.WorkNoApply | gitparent/gitp.py:1307-1475 | the recursive walk never applies overlays |
| PullSync.ChildrenNoApply | gitparent/gitp.py:1466-1468 | walking the children never applies overlays |
| PullSync.WorkStaysInside | gitparent/gitp.py:1307-1475 | the walk never acts on a path outside the subtree it was given, and below the top root it never changes the collected overlays |
| PullSync.ChildrenStayInside | gitparent/gitp.py:1459-1468 | the same for the children's walk |
| PullSync.OverlayTargetUntouched | gitparent/gitp.py:1337-1340 | without `--local`, an overlay target only sets `GITP_PARENT_REPO` and returns: nothing is done to it or its subtree |
| PullSync.SkippedNodeIdle | gitparent/gitp.py:1343-1355 | a skipped node runs no operation and no hook of its own |
| PullSync.LinksNotEntered | gitparent/gitp.py:1389-1408 | after the environment event, everything a link's visit does is at the link's own path |
| PullSync.LinkVisitAtNode | gitparent/gitp.py:1389-1408 | every event of a link's visit is at its own path |
| PullSync.TraversalOrder | gitparent/gitp.py:1320-1475 | a processed node produces the environment event, then its own work, then its children's work, then its hooks: `post_pull` after Cloning and `post_clone` otherwise |
| PullSync.VisitOrder | gitparent/gitp.py:1353-1475 | the visit is own work, then the children, then the hooks, with the children's overlays |
| PullSync.ParentEnvMarksTop | gitparent/gitp.py:1320 | `GITP_PARENT_REPO` is `1` exactly when the visited path is the top root |
| PullSync.PullOptions | gitparent/gitp.py:1477-1482 | `--local <repo>` makes that repository the target and turns `--local` on; otherwise the target and `--local` are as given |
| PullSync.PullOptionsAsWritten | gitparent/gitp.py:1477-1482 | as written, `--local <repo>` keeps only the first character of the value as the target, and an empty value raises |
| PullSync.LocalTargetTruncated | gitparent/gitp.py:1477-1482 | `--local sub` from `/w` skips `/w/sub` as written but copies an unrelated link `/w/src`; the intended reading does the opposite |
| PullSync.LocalTargetSelects | gitparent/gitp.py:1343-1348 | with the intended options, `--local <repo>` processes that repository and, of the entries that are not links, only it |
| PullSync.PullRun | gitparent/gitp.py:1477-1503 | as written, an empty `--local` value raises before anything is done, and nothing else raises that. Without a `--local` value the run is the intended one |
| PullSync.SingleCharacterTargetAgrees | gitparent/gitp.py:1479-1482 | a one-character `--local` value gives the same run as written and as intended |
| PullSync.OverlaysAppliedLast | gitparent/gitp.py:1501-1503 | for any settled options, overlays are applied at most once, as the very last event, and exactly when the walk succeeded without `--local` |
| PullSync.TopOverlaysApplied | gitparent/gitp.py:1459-1461 | the overlays applied are exactly `get_overlays` of the top manifest; deeper manifests' overlays are never used |
| PullWalk.Puller.constructor | gitparent/gitp.py:1304-1305 | the walk starts with no overlays and an empty trace |
| PullWalk.Puller.Walk | gitparent/gitp.py:1307-1475 | the trace grows by the events of `Work`, and the overlays and the exception are those of `Work` |
| PullWalk.Puller.VisitNode | gitparent/gitp.py:1353-1475 | the trace grows by the events of `Visit`, and the overlays and the exception are those of `Visit` |
| PullWalk.Puller.RunHooks | gitparent/gitp.py:1473-1475 | the trace grows by the hook events in order, and nothing else changes |
| PullWalk.Puller.Recurse | gitparent/gitp.py:1456-1475 | the trace, overlays and exception are those of `Descend` |
| PullWalk.Puller.WalkChildren | gitparent/gitp.py:1466-1468 | the trace, overlays and exception are those of the children's walk in manifest order |
| PullWalk.Puller.WalkChild | gitparent/gitp.py:1467-1468 | one child visit, as `ChildWork` gives it |
| PullWalk.Run | gitparent/gitp.py:1483-1503 | with the options settled, the events and exception are those of `RunWith` |
| PullWalk.Pull | gitparent/gitp.py:1477-1503 | the events and exception of a whole `pull` run, options as written, are those of `PullRun` |
| Remotes.ParseNext | gitparent/gitp.py:677-683 | one more line extends the parse by one line |
| Remotes.ParseErrStops | gitparent/gitp.py:680 | once a line is malformed, the lines after it do not matter |
| Remotes.SetDefault | gitparent/gitp.py:681-683 | `setdefault` followed by an inner update equals a single update of the remote's URLs |
| Remotes.GetRemotes | gitparent/gitp.py:675-684 | the loop returns exactly what the parse function gives for the output |
| Remotes.AllLinesEach | gitparent/gitp.py:677-680 | a predicate holds on all lines exactly when it holds on each |
| Remotes.ParseLinesAll | gitparent/gitp.py:677-684 | the parse succeeds exactly when every line is acceptable |
| Remotes.ParseLinesOk | gitparent/gitp.py:677-684 | the output parses exactly when every line is blank or splits into exactly three fields |
| Remotes.AddLineOk | gitparent/gitp.py:678-683 | one line is accepted exactly when it is blank or has three fields |
| Remotes.ExpectedKinds | gitparent/gitp.py:682-683 | the expected map built with any kind keys matches the literal `fetch`/`push` one |
| Remotes.FieldsOfRemoteLine | gitparent/gitp.py:680 | a listed line splits into the name, the url and the parenthesised kind |
| Remotes.ExpectedKeys | gitparent/gitp.py:681-682 | the parsed map has a key exactly for each listed remote |
| Remotes.InnerParen | gitparent/gitp.py:683 | `type[1:-1]` recovers the kind from its parenthesised form |
| Remotes.ReadLine | gitparent/gitp.py:680-683 | one listed line sets that kind's url of that remote |
| Remotes.FetchLine | gitparent/gitp.py:681-683 | the fetch line of a new remote adds it with its fetch url and no push url |
| Remotes.PushLine | gitparent/gitp.py:681-683 | the push line that follows sets the push url |
| Remotes.ParseListed | gitparent/gitp.py:677-684 | the lines listing distinct remotes parse to the expected map |
| Remotes.ListedNoNewline | gitparent/gitp.py:677 | no listed line contains a newline |
| Remotes.RemotesRoundTrip | gitparent/gitp.py:675-684 | parsing the `remote -v` listing of distinct remotes whose names and urls contain no space gives each remote's fetch and push url |
| CommandLine.Replace | gitparent/gitp.py:779 | replacing a character that does not occur changes nothing |
| CommandLine.ReplaceBySelf | gitparent/gitp.py:779 | replacing a character by itself changes nothing, so the quote `replace` is a no-op |
| CommandLine.QuoteAll | gitparent/gitp.py:779 | every argument is quoted on its own, in order |
| CommandLine.QuoteArgKeepsQuotes | gitparent/gitp.py:779 | an argument with a space is wrapped in double quotes with its own quotes left as they are |
| CommandLine.LexArg | gitparent/gitp.py:779 | a quoted or bare argument reads back as one token |
| CommandLine.ArgsRoundTrip | gitparent/gitp.py:769-779 | `shlex.split(args_to_str(args))` gives back the arguments when none is empty or holds a quote, a backslash or whitespace other than a space |
| CommandLine.QuotedQuoteLost | gitparent/gitp.py:779 | for the argument `a "b`, `args_to_str` gives `"a "b"`, which `shlex.split` refuses |
| CommandLine.UnclosedQuote | gitparent/gitp.py:779 | `shlex.split` refuses `"a "b"` |
| CommandLine.LexArgEscaped | gitparent/gitp.py:779 | with the quote escaped, a quoted argument reads back as one token |
| CommandLine.ArgsRoundTripEscaped | gitparent/gitp.py:769-779 | with `"` escaped as `\"`, the round trip also holds for arguments that contain quotes |
| Stash.DigitRun | gitparent/gitp.py:1057 | the length of the leading run of digits |
| Stash.ToNewline | gitparent/gitp.py:1057 | `(.*)` takes the text up to the first newline |
| Stash.LazyBranch | gitparent/gitp.py:1057 | the lazy `(.+?)` stops at the first `:` followed by whitespace, at least one character in |
| Stash.IsGitpStash | gitparent/gitp.py:1046-1067 | an accepted line has a message that starts with `__gitp` and its all-digit id; with an id asked for, only that id is accepted |
| Stash.IsGitpStashById | gitparent/gitp.py:1063-1064 | asking for an id accepts exactly the lines accepted without one that carry that id |
| Stash.StashLineRoundTrip | gitparent/gitp.py:1046-1067 | the line `stash` writes for a new stash is accepted by `is_gitp_stash` with its position, branch, message and id |
| Stash.SearchStashLine | gitparent/gitp.py:1057 | the stash pattern finds position, branch and message in a written line |
| Stash.GitpAccepted | gitparent/gitp.py:1058-1067 | a found message `__gitp<id> <text>` gives an entry with that id |
| Stash.RenumberStashLine | gitparent/gitp.py:1042-1044 | renumbering a written line replaces only its position |
| Stash.StashFile.constructor | gitparent/gitp.py:1129-1130 | the stash file's lines as read |
| Stash.StashFile.UpdateStashPos | gitparent/gitp.py:1042-1044 | line i is rewritten to carry position i, in place, and the number of lines is unchanged |
| Stash.StashFile.PushLine | gitparent/gitp.py:1193-1194 | the new line goes on top and every line is renumbered to its new position |
| Stash.PushRenumbers | gitparent/gitp.py:1193-1194 | after a push the file is the new stash at position 0 followed by the old entries, each one position lower |
| StashSelect.Dashed | gitparent/gitp.py:1027 | the options are exactly the arguments that start with `-` |
| StashSelect.ParseStashArgsCases | gitparent/gitp.py:1020-1040 | `--patch` or `-p` raises; several revisions outside `branch` fall back to git; otherwise the operation is the first argument, or `push` if none is given, and the first revision names the stash |
| StashSelect.ParsedNamesMessages | gitparent/gitp.py:1058-1066 | an accepted line's message is what a stash name matches |
| StashSelect.ScanOk | gitparent/gitp.py:1136-1147 | validation passes exactly when every line is a gitp stash and no id repeats; the reserved ids are then all ids |
| StashSelect.DefaultTakesTop | gitparent/gitp.py:1149-1152 | without a named stash (and not `clear`), only the top entry is selected |
| StashSelect.DefaultValidates | gitparent/gitp.py:1149-1156 | in that case validation succeeds with the top entry |
| StashSelect.ClearTakesAll | gitparent/gitp.py:1149-1150 | `clear` without a name selects every entry |
| StashSelect.Matching | gitparent/gitp.py:1153 | the entries a name selects are those whose message or `stash@{pos}` equals it |
| StashSelect.NamedTakesMatching | gitparent/gitp.py:1153-1155 | a named stash selects exactly the matching entries, and it counts as matched exactly when there is one |
| StashSelect.NamedValidates | gitparent/gitp.py:1153-1156 | with a name that matches nothing, `Unknown stash` is raised; otherwise the matching entries are selected |
| StashSelect.ListOneUnmatched | gitparent/gitp.py:1153 | the list `[1]` never matches an entry |
| StashSelect.ArgsOfBranchForm | gitparent/gitp.py:1033-1036 | `stash branch <name> <stash>` sets the branch name, and the stash target becomes `[1]` as written and `<stash>` as intended |
| StashSelect.BranchStashLost | gitparent/gitp.py:1034-1036 | as written, `stash branch <name> <stash>` always raises |
| StashSelect.BranchStashFound | gitparent/gitp.py:1153-1156 | as intended, `stash branch <name> <msg>` selects the entry with that message |
| StashSelect.ScanErrStops | gitparent/gitp.py:1138-1144 | once a line raises, the lines after it do not matter |
| StashSelect.ValidateStashes | gitparent/gitp.py:1133-1156 | the loop returns exactly what the validation function gives |
| StashSelect.CandidateInjective | gitparent/gitp.py:1184-1188 | distinct attempts produce distinct ids |
| StashSelect.TriedStep | gitparent/gitp.py:1184-1188 | each attempt tries an id not tried before |
| StashSelect.FreshId | gitparent/gitp.py:1183-1188 | the id returned is not reserved, and every earlier candidate was reserved |
| Status.CountPositive | gitparent/gitp.py:1944 | a state's count is positive exactly when some visited repo is in it |
| Status.Tally | gitparent/gitp.py:1906-1944 | every state has a count, and each count is the number of visited repos in that state |
| Status.ExitCode | gitparent/gitp.py:1995-2014 | a git fallback returns 1, and the code is always 0 or 1 |
| Status.NoteEmpty | gitparent/gitp.py:1999-2008 | a footer line is absent exactly when its state was not counted |
| Status.WarnLinesEmpty | gitparent/gitp.py:1999-2006 | `warn_footer` is empty exactly when no MODIFIED, UNALIGNED, NONEXISTENT or UNLINKED repo was counted |
| Status.SeenOfCount | gitparent/gitp.py:1944 | a count is positive exactly when some visited repo is in that state |
| Status.WarnedOfVisits | gitparent/gitp.py:1999-2006 | a warning is counted exactly when some visited repo is in a warning state |
| Status.ExitCodeOfVisits | gitparent/gitp.py:1999-2014 | without a fallback, `status` returns 1 exactly when some visited repo is MODIFIED, UNALIGNED, NONEXISTENT or UNLINKED |
| Status.ReportOfVisits | gitparent/gitp.py:1997-2011 | the report has the overlay line exactly when some repo is overlayed; then "All child repos in sync!" when no repo warns, and the non-empty warnings otherwise |
| Exec.FirstIndex | gitparent/gitp.py:2113-2117 | the first target equal to the path, or None exactly when there is none |
| Exec.AnyMatch | gitparent/gitp.py:2118-2122 | some filter matches the path |
| Exec.SelectKeeps | gitparent/gitp.py:2113-2117 | a visit removes at most one copy of its own path from the targets, and exactly one when the path is there |
| Exec.VisitKeeps | gitparent/gitp.py:2110-2138 | the walk only removes targets, and never one that names no path of the subtree |
| Exec.ChildrenKeeps | gitparent/gitp.py:2137-2138 | the same for the children's walk |
| Exec.VisitResolvesRoot | gitparent/gitp.py:2113-2117 | a target equal to the visited path is resolved |
| Exec.VisitRecordsRootFirst | gitparent/gitp.py:2125-2132 | a selected repo is recorded with its level and skip reason before anything below it |
| Exec.VisitExtends | gitparent/gitp.py:2110-2138 | the walk only appends to `command_targets` |
| Exec.ChildrenExtends | gitparent/gitp.py:2137-2138 | the children's walk only appends to `command_targets` |
| Exec.ModifiedOverridesTarget | gitparent/gitp.py:2113-2124 | with `--modified`, an unchanged repo named as a target is consumed but not selected |
| Exec.NonEmpty | gitparent/gitp.py:2098 | the commands kept are exactly the non-empty ones |
| Exec.NoCommandsIff | gitparent/gitp.py:2098-2100 | "No commands specified" is raised exactly when every command is empty |
| Exec.UnknownTargetRaises | gitparent/gitp.py:2110-2144 | a target that names no repo of the tree makes `exec` raise with the unresolved targets |
| Exec.UnresolvedAreGiven | gitparent/gitp.py:2143-2144 | the unresolved targets reported are non-empty and among those given |
| Exec.DefaultSelectsRoot | gitparent/gitp.py:2101-2102 | with neither targets nor filters, the top repository is the first one recorded |
| Exec.Executor.constructor | gitparent/gitp.py:2096-2104 | the walk starts with the given targets and no recorded repositories |
| Exec.Executor.Work | gitparent/gitp.py:2110-2138 | the targets and `command_targets` change exactly as the walk function gives |
| Exec.Executor.WorkChildren | gitparent/gitp.py:2137-2138 | the same for the children in manifest order |
| Exec.RunExec | gitparent/gitp.py:2096-2144 | the result is what the target-resolution function gives |
| Text.LStrip | gitparent/gitp.py:678 | a suffix of the string that does not start with whitespace |
| Text.RStrip | gitparent/gitp.py:678 | a prefix of the string that does not end with whitespace |
| Text.RStripSpaces | gitparent/gitp.py:678 | only whitespace is removed at the end |
| Text.SplitOn | gitparent/gitp.py:677 | at least one piece, and no piece contains the separator |
| Text.SplitJoin | gitparent/gitp.py:677 | splitting a join on a separator the parts lack gives back the parts |
| Text.FieldsAreWords | gitparent/gitp.py:680 | `str.split()` yields non-empty words without whitespace |
| Text.FieldsCons | gitparent/gitp.py:680 | a word followed by whitespace splits off as the first field |
| Text.ParseDecimalOfDecimal | gitparent/gitp.py:173 | `int` of the decimal form of a number is that number |
| Text.DecimalInjective | gitparent/gitp.py:1187 | distinct numbers have distinct decimal forms |
| Text.PathJoin | gitparent/gitp.py:1347 | `os.path.join` keeps an absolute second part and otherwise ends with it |
| PyValue.Lookup | gitparent/gitp.py:167-178 | a lookup finds nothing exactly when the key is absent |
| PyValue.LookupDistinct | gitparent/gitp.py:167-178 | with distinct keys, a lookup finds the value stored under the key |
| PyValue.DictSetKeys | gitparent/gitp.py:126-128 | assignment keeps an existing key's place and appends a new key |
| PyValue.DictSetLookup | gitparent/gitp.py:126-128 | after assignment the key maps to the new value, and every other key is unchanged |
| PyValue.DictSetTwice | gitparent/gitp.py:126-128 | a second assignment to the same key overwrites the first |

## Left out

- Git, processes and the disk are inputs here. This covers `_git`, `_exec`, `get_repo_root`, `get_current_branch`, `get_current_commit`, `merge_in_progress`, `check_for_changes`, `is_real_dir`, `os.listdir` and `os.readlink`. Either their answers are fields of the tree datatypes, or their effects are trace events.
- YAML loading and dumping, `Manifest.read`/`write`, the manifest cache and the `.gitp_stashes` file I/O are left out. `populate` takes an already loaded document.
- A loaded value is `None`, a string, a list or a mapping. The booleans, integers and floats that YAML can also produce are not representable, so the model does not capture these behaviours:
  - `link: true`, a truthy link that is not a path;
  - an all-digit `commit`, which loads as an integer, so `curr_commit.startswith(exp_commit)` at gitparent/gitp.py:573 raises `TypeError` (the `CommitNotString` fault covers only lists and mappings);
  - `commit: 0`, which is falsy, so `pull` checks out the branch, while the alignment rule still calls `startswith` with it when the branch matches.
- The lock server and `obtain_server_lock` are left out, because they are about concurrency. `pull` always runs its walk directly.
- `apply_overlays` is one trace event, recording the overlay entries and targets it is given. `resolve_repo_link` and `get_latest_subdir` are an input: the link's resolved path and whether it is a directory.
- Paths are taken as already absolute and normalised. The model leaves out `os.path.relpath` and `abspath`, and the relative rewriting of `src` and of link paths in `pull.work`. The `exec` target test compares strings, which is `abspath` equality under that assumption.
- Printing, colouring, indentation, headers, `debug`/`error`, `style`, `abbreviate_status_print` and the `stash list` print are left out. A failed `git pull` is one "report" event.
- `status`:
  - The per-repository state comes from `check_for_overlay_state_match`, the mismatches and `check_for_changes`. That state is an input: the sequence of states the walk visited.
  - The status walk itself is not modelled.
  - The line printed per repository is not modelled.
  - The `UnboundLocalError` that follows a manifest failure at the top without a merge in progress is not modelled.
- The recursion of `check_for_state_match` and its `filter_type` and `pfx` bookkeeping are not modelled; the per-child rule is. `pull`'s UNALIGNED refusal takes the answer of that walk as an input.
- Pulling the top repository without a parent entry uses its first remote's fetch url. The `IndexError` when it has no remote is not modelled. A failing `git remote -v` is not modelled either: `get_remotes` takes the output text.
- A failing hook command is not modelled. Every hook event is taken to succeed.
- `Repo.__eq__` with a non-`Repo` argument raises. The model's equality takes two entries only.
- `exec`:
  - A regular expression that fails to compile is not modelled.
  - `re.search` is the `search` parameter.
  - Running the commands and the preview are not modelled.
- `stash`:
  - Running the stash commands in each repository is left out, and so is the recursive work walk.
  - The time-based stash name is a parameter.
  - Rewriting `.gitp_stashes` after `drop`/`pop`/`clear`/`branch` is left out. As written, it appends the whole list of lines for every kept line, which is evidently unintended.
- `clear` with a named stash can select an entry twice. The selection is modelled as written, but what running the commands twice does is not.
- Integers are unbounded. `int(port)` and the stash positions have no width in Python, so nothing is lost.
- Whitespace and digits are ASCII. Python's `\s`, `\d`, `str.split()` and `strip()` also accept other Unicode characters.
- PullSync.Work: a link's resolved path and the `--force` decision are inputs. The model does not state which filesystem objects end up at the path.
- Where a reader might expect otherwise, the model follows the code (gitparent/gitp.py):
  - Hooks run after the children, not between a repository's own clone and its children (1464-1475).
  - `post_pull` runs after Cloning, and `post_clone` after anything else (1472).
  - Hooks run in the repository's own directory, from its own manifest (1471-1474).
  - Any exception aborts the whole `pull`. Only a failed `git pull` is reported, and then the walk goes on (1420-1424). The checkout or reset that follows can still raise, so one visit can report a failed pull and then raise.
  - A pinned commit is applied with `git reset --hard <branch>` (1444-1446).
  - `GITP_PARENT_REPO` is set at every visit, skipped or not (1320).
  - A missing `type` always means `repo` (190-192).
  - Every `Manifest` is truthy, since `__boolean__` (107-108) is not Python's `__bool__`, so a manifest with no entries still takes part in recursion.

## Findings

| source | as written | input that shows it | evidently intended | confidence | as-written member | corrected member |
|---|---|---|---|---|---|---|
| gitparent/gitp.py:779 | `x.replace('"', '\"')` replaces `"` by itself, so quotes inside a quoted argument are not escaped | the argument list `['a "b']` gives `"a "b"`, which `shlex.split` refuses | escape embedded quotes as `\"`, so that the string splits back into the arguments | high (not executed) | CommandLine.QuotedQuoteLost | CommandLine.ArgsRoundTripEscaped |
| gitparent/gitp.py:1479-1482 | `args.target = args.local[0]` takes the first character of the `--local` string value | `pull --local sub` in `/w`: the target becomes `s`, so `/w/sub` is skipped and an unrelated link at `/w/src` is copied | the whole value is the target | high (not executed) | PullSync.LocalTargetTruncated | PullSync.LocalTargetSelects |
| gitparent/gitp.py:1034-1036 | `stash branch <name> <stash>` sets the stash target to the list `[1]`, which equals no message or `stash@{n}` | `stash branch b x` always raises `Unknown stash` | the second revision names the stash | high (not executed) | StashSelect.BranchStashLost | StashSelect.BranchStashFound |
