# node-git in Dafny

A model of the core of node-git, a tiny Node.js library that serves files,
directory listings and commit history of a git repository, either at a commit
(by running `git show` / `git log`) or from the work tree on disk (version
`"fs"`). Every read is wrapped in a coalescing cache: concurrent identical
requests share one run of the reader, successful results are kept for a while,
and the head commit is resolved once for all waiting callers.

Two variants of the library are modelled side by side:

- `lib/git-fs.js` (modules `Safe`, `HeadSha`, `HeadRef`, `Exec`, `TreeText`,
  `LogText`, `GitFs`): the `safe` decorator with its version check,
  `getHeadSha` with loose refs and packed-refs, `gitExec` with not-found
  classification, the `logFile` parser, the commit branches of `readFile` and
  `readDir`, and `getHead`.
- `lib/git.js` (module `LegacyGit`): the earlier variant. It differs in five ways:
  - its file and directory caches have no version check;
  - they flush before they cache;
  - their commit entries never expire;
  - its `gitExec` answers at `exit` with binary strings;
  - it resolves the head from packed-refs only.
  Its constructor and its sha cache are the same code as in lib/git-fs.js and
  share the `Repo` and `HeadSha.ShaCache` models.
- `lib/tools.js` (module `Tools`): `join`, the copy of byte chunks into one
  preallocated buffer, optionally decoded.

Shared modules: `Wrappers` (Option/Result), `Text` (the JavaScript string
operations and regular-expression character classes the source relies on,
written out), `GitTypes` (errors, values, outcomes, deliveries) and `Repo`
(the constructor and `gitCommands`).

How the I/O is modelled:
- Each cache is a state machine of three events: a request, a completion and an
  expiry. Each exists twice:
  - as spec functions over a value (`RequestStep`, `CompleteStep`/`FinishStep`,
    `ExpireStep`);
  - as a class whose fields are the source's dictionaries, and whose methods
    are proved to produce exactly the state and the deliveries of the spec
    functions.
- A completion returns the ordered list of callbacks made and the delay of the
  timer it sets. The timer firing is the separate expiry event.
- Callbacks are delivered immediately.
- Subprocess and file-system results are parameters:
  - stdout and stderr chunks;
  - the exit code (`None` when the child died by a signal);
  - file contents, or an error carrying an ENOENT flag.
- Text decoding is an opaque `Decoder` function. The one exception is the
  byte-to-character `binary` encoding of lib/git.js, which is modelled
  exactly.

## Model

| member | source | states |
|---|---|---|
| Tools.TotalLength | lib/tools.js:4-6 | the `reduce` accumulator ends at the sum of the chunk lengths |
| Tools.Concat | lib/tools.js:7-11 | the result is a fresh buffer equal to the in-order concatenation of the chunks; inputs are only read |
| Tools.CopyInto | lib/tools.js:9 | `b.copy(result, index)` puts the chunk at offset `index` and leaves the bytes before it alone |
| Tools.CopyChunk | lib/tools.js:8-11 | one turn of the loop extends the written prefix by the next chunk and advances the offset by its length |
| Tools.Join | lib/tools.js:2-16 | raw concatenated bytes without an encoding (absent or empty), the decoding of the concatenation with one |
| Tools.Joined | lib/tools.js:12-15 | raw exactly when no encoding is asked for; the raw result is as long as the inputs together |
| Tools.FlattenLength | lib/tools.js:4-7 | the concatenation is as long as the sum of the input lengths |
| Tools.FlattenAt | lib/tools.js:8-11 | byte j of chunk i lands at offset (sum of lengths of chunks before i) + j |
| Tools.FlattenSingle | lib/tools.js:8-11 | one chunk is returned unchanged |
| Tools.FlattenAppend | lib/tools.js:8-11 | concatenation distributes over appending chunk lists |
| Tools.SumPrefix | lib/tools.js:4-6 | the running offset never exceeds the total length |
| Text.SplitOn | lib/git-fs.js:227 | `split` yields at least one piece and no piece holds a separator |
| Text.CodeUnits | lib/git-fs.js:74 | a character is one UTF-16 code unit below U+10000 and two (a surrogate pair) above |
| Text.Utf16Length | lib/git-fs.js:74 | JavaScript's `length`: between the number of characters and twice that |
| Text.BmpLength | lib/git-fs.js:74 | for characters below U+10000 `length` is the number of characters |
| Text.AstralLength | lib/git-fs.js:74 | for characters above U+FFFF `length` is twice the number of characters |
| Text.Utf16Append | lib/git-fs.js:74 | `length` adds up over concatenation |
| Text.SplitAppend | lib/git-fs.js:227 | splitting at a separator character splits the two sides independently |
| Text.SplitFree | lib/git-fs.js:227 | a string without separators splits into itself alone |
| Text.JoinSplit | lib/git-fs.js:71 | joining the pieces of a split with its separator gives the string back |
| Text.SplitJoin | lib/git-fs.js:294 | for any separator set, splitting a join of separator-free pieces with one separator gives the pieces back |
| Text.JoinWith | lib/git-fs.js:71 | `Array.prototype.join` with a separator: the parts with the separator between neighbours (also `commands.join(" ")`, lib/git-fs.js:204) |
| Text.Trim | lib/git-fs.js:230 | `trim` keeps the slice that neither starts nor ends with white space, everything cut off being white space |
| Text.LeadingSpace | lib/git-fs.js:233 | the length of the white-space run at the start, which ends at a non-space or the end |
| Text.TrailingSpace | lib/git-fs.js:291 | the length of the white-space run at the end, which starts after a non-space or at the start |
| Text.TrimmedSlice | lib/git-fs.js:291 | `trim` as `trimStart` then `trimEnd` keeps the slice starting where the leading white space ends, with white space on both sides |
| Text.TrimStart | lib/git-fs.js:233 | leading white space (`\s*`) removed: what is cut off is white space and what is kept does not start with it |
| Text.TrimEnd | lib/git-fs.js:291 | trailing white space removed: what is cut off is white space and what is kept does not end with it |
| Text.ToLowerAscii | lib/git-fs.js:233-234 | maps A-Z to a-z and keeps every other character; this is exactly `toLowerCase` on the `[A-Za-z]+` capture it is applied to, though JavaScript also lowers non-ASCII letters |
| Text.Find | lib/git-fs.js:230 | the first occurrence of a pattern at or after a position, or the end |
| Text.IndexOfFrom | lib/git-fs.js:39 | the first occurrence of a character at or after a position, or the end |
| Text.IndexOfAnyFrom | lib/git-fs.js:286 | the first line terminator at or after a position, or the end |
| Text.JsonQuote | lib/git-fs.js:269 | `JSON.stringify(path)` is quoted and, for a path without quotes, backslashes or control characters, is the path itself in quotes |
| Text.EscapeChar | lib/git-fs.js:269 | characters needing an escape get a backslash form, others are kept |
| Text.Escape | lib/git-fs.js:269 | the body of `JSON.stringify` of a string: each character replaced by its escape form, in order |
| Text.EscapePlain | lib/git-fs.js:269 | a string without such characters is not changed by escaping |
| GitTypes.FromIo | lib/git-fs.js:268 | a file-system error is a not-found error exactly when its errno is ENOENT, with its message kept |
| GitTypes.FromPayload | lib/git-fs.js:211 | a raw join is handed on as a Buffer, a decoded one as a string |
| GitTypes.Truthy | lib/git-fs.js:91 | JavaScript truthiness of a value: only the empty string is falsy; Buffers and listings are objects and so truthy |
| GitTypes.Broadcast | lib/git-fs.js:101-103 | every waiter, in order, receives the same outcome, once |
| Repo.Open | lib/git-fs.js:37-60 | the constructor over the module variables of the previous open: a missing repository is the error "Bad repo path: " + repo; with `.git` the work tree is the repo, the git dir `repo/.git` and both are passed to git; otherwise the repo is its own git dir, only it is passed, and `workTree` keeps whatever an earlier open left (lib/git.js:30-48 is the same code) |
| Repo.JoinPath | lib/git-fs.js:51 | `Path.join(a, b)` as a + "/" + b |
| Repo.WellFormed | lib/git-fs.js:54-57 | `gitCommands` is `--git-dir=…` alone, or followed by `--work-tree=` and the work tree |
| Repo.PassesWorkTree | lib/git-fs.js:54 | git is told the work tree exactly when `gitCommands` has two entries |
| Repo.After | lib/git-fs.js:37-48 | the module variables after an open: the new ones, or the old ones untouched when the constructor throws |
| Repo.FirstOpen | lib/git-fs.js:37-58 | the first open of a process has a work tree exactly when it finds `.git` |
| Repo.BareAfterWorkTree | lib/git-fs.js:37-58 | a bare repository opened after a work tree keeps the old work tree though git no longer gets it; a failed open leaves all variables as they were |
| Repo.Argv | lib/git-fs.js:189 | the argument vector is `--git-dir=…`, then `--work-tree=…` exactly when the last successful open found `.git`, then the commands |
| Exec.SearchNotFound | lib/git-fs.js:39 | the search finds a match of `gitENOENT` exactly when the message holds one |
| Exec.PathMissingAt | lib/git-fs.js:39 | the first alternative of `gitENOENT` at a position: "fatal: Path '", a non-empty run without quotes, "' does not exist in '", 40 hex digits, "'" |
| Exec.UnknownRevisionAt | lib/git-fs.js:39 | the second alternative: "fatal: ambiguous argument '", a non-empty run without quotes, "': unknown revision or path not in the working tree" and one more character |
| Exec.ReportsNotFound | lib/git-fs.js:205 | `gitENOENT.test(message)`: one of the alternatives occurs somewhere |
| Exec.FailureMessage | lib/git-fs.js:204 | "git " + the argument vector joined by spaces + "\n" + stderr |
| Exec.Classify | lib/git-fs.js:203-211 | an exit code above 0 fails with "git " + argv joined by spaces + "\n" + stderr, tagged not-found exactly when the message matches `gitENOENT`; otherwise the join of stdout with the encoding |
| Exec.PathMissingIsNotFound | lib/git-fs.js:39 | git's "Path '…' does not exist in '<sha>'" report is classified as not found |
| Exec.PathMissingAtMessage | lib/git-fs.js:39 | the pattern matches git's "Path '…' does not exist in '<sha>'" report where it starts |
| Exec.IndexOfFromAt | lib/git-fs.js:39 | the `[^']+` run ends at the first quote |
| Exec.GitProcess.Spawn | lib/git-fs.js:189-191 | a child starts with the full argument vector and no output |
| Exec.GitProcess.OnStdout | lib/git-fs.js:192-194 | a stdout chunk is appended, nothing else changes |
| Exec.GitProcess.OnStderr | lib/git-fs.js:195-197 | a stderr chunk is appended, nothing else changes |
| Exec.GitProcess.OnExit | lib/git-fs.js:199-201 | the exit code is recorded, the output kept |
| Exec.GitProcess.OnClose | lib/git-fs.js:202-212 | the callback gets `Classify` of everything the streams delivered |
| HeadRef.SymbolicRef | lib/git-fs.js:154 | a match of `^ref: (.*)\n$` gives the one-line ref X with HEAD = "ref: " + X + "\n" |
| HeadRef.SymbolicRefOf | lib/git-fs.js:154 | every one-line ref written that way is read back |
| HeadRef.DetachedHeadDoesNotMatch | lib/git-fs.js:154 | a detached HEAD (a bare sha) does not match |
| HeadRef.FirstShaThen | lib/git-fs.js:171-175 | the leftmost position of 40 hex digits followed by the suffix |
| HeadRef.ShaBefore | lib/git-fs.js:171-175 | the capture is a sha, there is one exactly when the pattern occurs, and it is the 40 digits at the leftmost match |
| HeadRef.LooseSha | lib/git-fs.js:171 | a loose ref file gives a sha exactly when 40 hex digits followed by a newline occur, and it is those at the leftmost such position |
| HeadRef.PackedSha | lib/git-fs.js:173-175 | packed-refs gives a sha exactly when 40 hex digits followed by " " + ref occur, and it is those at the leftmost such position |
| HeadRef.PackedLineFound | lib/git-fs.js:173-175 | a packed-refs line `<sha> <ref>` with no earlier match yields exactly that sha |
| HeadRef.Resolve | lib/git-fs.js:145-184 | a resolved id is a sha, and needs both the packed-refs and the HEAD read to succeed and HEAD to be `ref: X\n` |
| HeadRef.LooseRefWins | lib/git-fs.js:170-171 | a non-empty loose ref file decides the result whatever packed-refs holds |
| HeadRef.PackedRefsFallback | lib/git-fs.js:172-176 | without a loose ref the sha preceding " " + ref in packed-refs is the result, or a failure |
| HeadRef.HeadMismatchFails | lib/git-fs.js:153-155 | a HEAD that is not `ref: X\n` fails every waiter |
| HeadSha.RequestStep | lib/git-fs.js:117-124 | served from the cache, else queued behind the run in flight, else "gitDir not set yet!" without a git dir, else a new run; only the last two change the state |
| HeadSha.FinishStep | lib/git-fs.js:125-130 | a resolution calls every queued waiter once, in order, with one outcome and clears the queue; only a success is cached, with a 100 ms timer; a stalled run answers nobody |
| HeadSha.ExpireStep | lib/git-fs.js:183 | the timer drops the cached sha and nothing else |
| HeadSha.RequestAll | lib/git-fs.js:117-119 | a run of requests keeps the invariant (nothing cached while a queue is pending) |
| HeadSha.OneResolutionForAll | lib/git-fs.js:119-124 | concurrent callers start one resolution and all wait in its queue, in order |
| HeadSha.CoalescedDelivery | lib/git-fs.js:125-130 | the one resolution reaches all those callers, in order, with the same outcome |
| HeadSha.StalledQueueNeverAnswers | lib/git-fs.js:167 | after a stalled run every later caller joins a queue that is never flushed |
| HeadSha.ShaCache.constructor | lib/git-fs.js:113-114 | no sha cached, nobody waiting |
| HeadSha.ShaCache.Request | lib/git-fs.js:115-124 | the module variables change as `RequestStep` says (lib/git.js:53-62 is the same code) |
| HeadSha.ShaCache.Finish | lib/git-fs.js:125-130 | the flush loop delivers and updates exactly as `FinishStep` says |
| HeadSha.ShaCache.Expire | lib/git-fs.js:183 | the timer empties the cache as `ExpireStep` says |
| HeadSha.BindExec | lib/git-fs.js:188 | arguments bind to `(commands, encoding, callback)` by position, missing ones undefined |
| HeadSha.GcAsWrittenNeverReadsRefs | lib/git-fs.js:139-141 | as written the `gc` continuation is never called, so refs are never read without packed-refs |
| HeadSha.GcCallReadsRefs | lib/git-fs.js:134-143 | with the continuation passed as callback the refs are always read |
| HeadSha.ResolveRun | lib/git-fs.js:134-143 | with the intended `gc` call every run reaches `Resolve` |
| HeadSha.ResolveRunAsWritten | lib/git-fs.js:134-143 | as written a repository without packed-refs stalls for ever |
| Safe.RequestStep | lib/git-fs.js:69-87 | a version whose `length` is not 40 UTF-16 code units and that is not "fs" is rejected with "Invalid version …" and nothing changes; a cached key is served unchanged; a pending key gets the waiter appended; only a miss in both starts `fn`, with the key = args joined by ":" |
| Safe.ValidVersion | lib/git-fs.js:74 | a version passes when its `length` (UTF-16 code units) is 40 or it is "fs" |
| Safe.LengthCountsCodeUnits | lib/git-fs.js:74 | twenty characters above U+FFFF pass the check, while 39 letters and one such character do not |
| Safe.KeyOf | lib/git-fs.js:70-71 | the key is the arguments without the callback joined by ":" |
| Safe.Lifetime | lib/git-fs.js:97 | the timer delay is `CACHE_LIFE[1]` for "fs" and `CACHE_LIFE[0]` otherwise |
| Safe.Cacheable | lib/git-fs.js:91 | `if (value)`: a result is cached exactly when there is a truthy value |
| Safe.CompleteStep | lib/git-fs.js:88-106 | every waiter is called once, in order, with one outcome; a truthy value is cached with a timer of 100 ms for "fs" and 36300000 ms otherwise; the queue entry is removed |
| Safe.ExpireStep | lib/git-fs.js:95-97 | the timer drops only that key |
| Safe.RequestAll | lib/git-fs.js:69-87 | a run of requests keeps the invariant, never changes the cache and never drops a pending key |
| Safe.AtMostOneRunPerKey | lib/git-fs.js:84-86 | whatever the calls, a key gets at most one run of `fn`, and none while cached or pending |
| Safe.CallsOf | lib/git-fs.js:70 | builds N well-formed calls, the i-th being the same arguments with waiter i |
| Safe.CallersQueueBehind | lib/git-fs.js:84 | callers of a pending key all queue behind, in call order |
| Safe.QueuedResponses | lib/git-fs.js:84 | every caller of a pending key is answered "queued" |
| Safe.QueuedState | lib/git-fs.js:84 | the callers of a pending key are appended, in order, to its queue and nothing else in the queue changes |
| Safe.CallersQueueInOrder | lib/git-fs.js:84-86 | the first caller of a fresh key starts the run, the rest queue in order |
| Safe.Coalescing | lib/git-fs.js:84-107 | N concurrent identical calls run `fn` once and its completion reaches all N, in order, with one outcome |
| Safe.FailureIsNotCached | lib/git-fs.js:91 | after an error or falsy value the next call runs `fn` again |
| Safe.SuccessIsServedUntilExpiry | lib/git-fs.js:80-98 | after a truthy value later calls are served from the cache, until the timer fires |
| Safe.LifetimeByVersion | lib/git-fs.js:30 | "fs" entries live 100 ms, commit entries 36300000 ms |
| Safe.SafeCache.constructor | lib/git-fs.js:67-68 | empty cache and queue |
| Safe.SafeCache.Request | lib/git-fs.js:69-87 | the dictionaries change as `RequestStep` says |
| Safe.SafeCache.Complete | lib/git-fs.js:88-106 | cache written before the flush loop, then the queue cleared, as `CompleteStep` says |
| Safe.SafeCache.Expire | lib/git-fs.js:95-97 | `cache[key] = false` as `ExpireStep` says |
| TreeText.HeaderEnd | lib/git-fs.js:286 | the end of the `^tree .*\n\n` match, which exists exactly when the text has such a header |
| TreeText.HeaderAt | lib/git-fs.js:286 | `^tree .*\n\n` matches ending at `end`: "tree ", one line, two line feeds |
| TreeText.IsDirEntry | lib/git-fs.js:295 | `/\/$/.test(entry)`: the entry ends in "/" |
| TreeText.Classified | lib/git-fs.js:294-300 | the entries split into files and dirs by the "/" test, in order |
| TreeText.HeaderUnique | lib/git-fs.js:291 | the header match, and so the text it removes, is unique |
| TreeText.Entries | lib/git-fs.js:291-294 | the entries contain no newline |
| TreeText.FilesInAppend | lib/git-fs.js:294-300 | the file and dir filters distribute over appending entry lists |
| TreeText.EntryCount | lib/git-fs.js:294-300 | the files and dirs together are as many as the entries |
| TreeText.EntriesListed | lib/git-fs.js:294-300 | every plain entry is among the files and every "/" entry, stripped, among the dirs |
| TreeText.ListedEntries | lib/git-fs.js:294-300 | every file is a plain entry and every dir with "/" appended is an entry |
| TreeText.ClassifiedKeepsOrder | lib/git-fs.js:294-300 | the pushes yield the plain entries in order as files and the "/" entries, stripped, in order as dirs |
| TreeText.EachEntryOnce | lib/git-fs.js:294-300 | every entry lands in exactly one list: both lists together are as long as the entries; a plain entry is a file; a dir entry minus "/" is a dir; nothing else appears |
| TreeText.Partition | lib/git-fs.js:292-300 | the `forEach` loop builds exactly that partition |
| TreeText.ParseTree | lib/git-fs.js:286-304 | no listing exactly when the header is missing, otherwise the partition of the trimmed entries (lib/git.js:239-253 is the same rule) |
| TreeText.ParseTreeAt | lib/git-fs.js:286-294 | a text with the header ending at `end` parses to the partition of the trimmed entries after `end` |
| TreeText.TrimFinalNewline | lib/git-fs.js:291 | trimming drops git's final newline |
| TreeText.PrintedEntries | lib/git-fs.js:291-294 | trimming and splitting git's newline-terminated entry list gives the entries back |
| TreeText.TreeRoundTrip | lib/git-fs.js:286-304 | what git prints for a tree parses back to its entries, partitioned |
| TreeText.EmptyTreeListsEmptyName | lib/git-fs.js:291-298 | an empty tree yields one file named "" |
| TreeText.NoEntriesLeft | lib/git-fs.js:291 | a header that ends the text leaves the one entry "" |
| TreeText.BlobIsNotTree | lib/git-fs.js:286-289 | text not starting with "tree " is not a directory |
| TreeText.ReadTree | lib/git-fs.js:286-304 | the parse with its loop equals `ParseTree` |
| LogText.LowerRunEnd | lib/git-fs.js:232 | the end of the `[a-z]*` run |
| LogText.HeaderColon | lib/git-fs.js:232 | a line is a header line exactly when it matches `^[A-Z][a-z]*:` |
| LogText.LowerRunEndAt | lib/git-fs.js:232 | the run ends at the first non-lower-case character |
| LogText.HeadersOf | lib/git-fs.js:232 | at most one field per line |
| LogText.LaterFieldWins | lib/git-fs.js:234 | a field holds the value of its last header line |
| LogText.MessageUnlessReplaced | lib/git-fs.js:229-231 | without a "Message:" header the message field is the trimmed text after the blank line |
| LogText.FieldNames | lib/git-fs.js:229-235 | the fields are "message" plus exactly the lower-cased header names |
| LogText.HeaderLineRoundTrip | lib/git-fs.js:233-234 | `Name: value` is read back as the lower-cased name and the value without leading space |
| LogText.SkipSpace | lib/git-fs.js:233 | `\s*` removes exactly the leading white space |
| LogText.LeadingGap | lib/git-fs.js:233 | the white space before a value that does not start with white space is exactly the gap |
| LogText.ParseRecord | lib/git-fs.js:228-235 | a record parses exactly when it starts with `commit <40 hex>`, has a blank line, and has a header line; the id is those 40 digits, the fields the message then each header |
| LogText.HasCommit | lib/git-fs.js:228 | `^commit ([a-f0-9]{40})` matches at the start |
| LogText.MessageOf | lib/git-fs.js:230 | the message is the trimmed text after the first blank line |
| LogText.HeaderField | lib/git-fs.js:233-234 | a header line gives its name lower-cased and its value after the colon and `\s*` |
| LogText.FieldsOf | lib/git-fs.js:229-235 | the fields start as the message, then each header assigns its field in order |
| LogText.Lowered | lib/git-fs.js:234 | the fields headers give: each name lower-cased, in order, as many as the headers |
| LogText.RecordRoundTrip | lib/git-fs.js:226-236 | the property the log test relies on (test/git-fs.test.js:72): a record `commit <sha>`, header lines, a blank line and a message without header lines parses to that sha, with the message trimmed and each header under its lower-cased name |
| LogText.HeaderValueRead | lib/git-fs.js:234 | in such a record a header not repeated later (as the `Author:` the log test reads, test/git-fs.test.js:72) is read back under its lower-cased name with its value |
| LogText.LoweredAt | lib/git-fs.js:234 | field k is header k lower-cased |
| LogText.CommitLine | lib/git-fs.js:228 | the record starts with `commit ` and the 40 digits after it are the sha |
| LogText.RecordMessage | lib/git-fs.js:230 | the first blank line of the record is the one before the message, so the message is read back |
| LogText.RecordLines | lib/git-fs.js:232 | the lines of the record are the commit line, the header lines, a blank line and the message lines |
| LogText.RecordHeaders | lib/git-fs.js:232-234 | those lines yield exactly the lowered headers |
| LogText.CommitAndHeaderFields | lib/git-fs.js:232-234 | the commit line yields no field and the header lines their lowered headers |
| LogText.BlankAndMessageFields | lib/git-fs.js:232 | the blank line and a message without header lines yield no field |
| LogText.CommitLineOneLine | lib/git-fs.js:232 | the commit line holds no line terminator |
| LogText.HeaderLinesOneLine | lib/git-fs.js:232 | every header line is non-empty and holds no line terminator |
| LogText.HeaderLineOneLine | lib/git-fs.js:232 | one header line is non-empty and holds no line terminator |
| LogText.JoinNoBlank | lib/git-fs.js:230 | non-empty lines joined by "\n" neither start nor end with a line feed and hold no blank line |
| LogText.FirstBlankLine | lib/git-fs.js:230 | the first "\n\n" of a + "\n\n" + rest is right after a when a has no blank line and does not end in a line feed |
| LogText.HeadersOfAppend | lib/git-fs.js:232 | the header lines of appended line lists append |
| LogText.NoHeaders | lib/git-fs.js:232 | lines none of which is a header line give no field |
| LogText.HeadersOfLines | lib/git-fs.js:232-234 | the lines `Name: value` give exactly the lowered headers |
| LogText.LastHeaderLine | lib/git-fs.js:232-234 | one more `Name: value` line adds exactly its lowered header |
| LogText.HeaderLineRead | lib/git-fs.js:233-234 | `Name: value` has its colon after the name and reads back as the lowered name and the value |
| LogText.IndexOfCommit | lib/git-fs.js:236 | the position of a commit in the log, or its end |
| LogText.Put | lib/git-fs.js:236 | `log[commit] = data` keeps ids distinct: an id already present is replaced where it stands, a new one is appended at the end (insertion order), every other entry is kept |
| LogText.LogOf | lib/git-fs.js:227-237 | the log of the records has distinct ids |
| LogText.ParseLog | lib/git-fs.js:226-238 | empty output gives `[]`; otherwise the log of the NUL-separated records, or a throw |
| LogText.LastRecordWins | lib/git-fs.js:236 | each record's entry is in the log unless a later record has the same id |
| LogText.EntriesFromRecords | lib/git-fs.js:227-237 | every log entry comes from some record |
| LogText.LogFailsAfter | lib/git-fs.js:228 | a record that throws fails the whole parse |
| LogText.HeadersOfStep | lib/git-fs.js:232 | one more line adds at most its own field |
| LogText.FieldsOfStep | lib/git-fs.js:234 | one more header assigns one field |
| LogText.FillFields | lib/git-fs.js:229-235 | the header loop fills exactly the fields of the record |
| LogText.ParseEntry | lib/git-fs.js:228-236 | the parse of one record with its loop equals `ParseRecord` |
| LogText.ParseHistory | lib/git-fs.js:226-238 | the record loop equals `ParseLog` |
| LogText.FillLog | lib/git-fs.js:227-237 | the record loop builds exactly the log the records give, or fails as they do |
| GitFs.Dispatch | lib/git-fs.js:260 | a version whose `length` is 40 UTF-16 code units goes to git, anything else to the file system |
| GitFs.DispatchOfValidVersion | lib/git-fs.js:283 | among valid versions exactly "fs" is read from disk |
| GitFs.ReadFileArgs | lib/git-fs.js:252-257 | the cache key is version:path, plus :encoding when one is given |
| GitFs.ShowCommand | lib/git-fs.js:261 | the command is `show version:path` |
| GitFs.ExecOutcome | lib/git-fs.js:261 | gitExec's callback arguments are passed through |
| GitFs.ReadFileSha | lib/git-fs.js:260-263 | `git show version:path`: an error exactly for an exit code above 0, else a Buffer without an encoding and a string with one |
| GitFs.ReadFileFs | lib/git-fs.js:252-274 | the file is a Buffer without an encoding (absent or empty) and its decoding with one; an ENOENT error gets " " + JSON.stringify(path) appended, other errors are unchanged |
| GitFs.FsPath | lib/git-fs.js:266 | the file read is `Path.join(workTree, path)` |
| GitFs.ReadDirFileArgs | lib/git-fs.js:284 | a tree is read through the `readFile` cache under version:path:utf-8 |
| GitFs.ReadDirSha | lib/git-fs.js:284-305 | an error is passed on, a non-tree is a "not a directory" error, a tree gives its listing |
| GitFs.ReadDirShaAsWritten | lib/git-fs.js:284-305 | as written a non-tree throws instead of calling back; every other outcome is that of `ReadDirSha` |
| GitFs.NonTreeThrowsAsWritten | lib/git-fs.js:286-288 | a text not starting with "tree " throws as written, and is the "not a directory" error when corrected |
| GitFs.ListingIsCached | lib/git-fs.js:301-304 | a listing is truthy and so cached |
| GitFs.LogCommand | lib/git-fs.js:221 | the command is `log -z --summary version -- path` |
| GitFs.LogFileEnd | lib/git-fs.js:218-242 | git's error for an exit code above 0, else the parsed history, or a throw when the parse fails |
| GitFs.GetHead | lib/git-fs.js:340-343 | "fs" exactly for a work tree without `forceHead`, else the head sha |
| GitFs.LogAfterHead | lib/git-fs.js:244-249 | the head sha's error is passed on, the sha is used as `logFile`'s version |
| GitFs.HeadShaIsValidVersion | lib/git-fs.js:244-249 | the sha `getHeadSha` resolves passes `safe`'s check and is read from git |
| GitFs.WorkTreeVersionIsValid | lib/git-fs.js:341 | "fs" passes `safe`'s check and is read from disk |
| GitFs.BareOpenKeepsOldWorkTree | lib/git-fs.js:37-58 | after a bare open that follows a work-tree open, `getHead` still answers "fs" and files are read from the old work tree |
| LegacyGit.DefaultVersion | lib/git.js:130-139 | a given version is used; without one "fs" on a work tree, else the head sha |
| LegacyGit.Key | lib/git.js:142 | the cache key is version + ":" + path |
| LegacyGit.AfterHead | lib/git.js:135-138 | the head sha's error goes to the caller, the sha is the version of the second call |
| LegacyGit.HeadShaIsUsedDirectly | lib/git.js:137 | the second call reads at the sha without asking again |
| LegacyGit.RequestStep | lib/git.js:142-148 | served from a cached key, queued on a pending one, otherwise one run started; key = version:path |
| LegacyGit.NoVersionCheck | lib/git.js:142-148 | any version, valid or not, starts a run |
| LegacyGit.CompleteStep | lib/git.js:149-155 | every waiter called once in order with one outcome, a truthy value cached, the queue cleared; the 100 ms timer exactly after a successful read of "fs" |
| LegacyGit.ExpireStep | lib/git.js:162 | the timer drops only that key |
| LegacyGit.RequestAll | lib/git.js:144-148 | a run of requests keeps the invariant and never changes the cache |
| LegacyGit.CallersQueueBehind | lib/git.js:146 | callers of a pending key queue behind in order |
| LegacyGit.QueuedResponses | lib/git.js:146 | every caller of a pending key is answered "queued" |
| LegacyGit.QueuedState | lib/git.js:146 | the callers of a pending key are appended, in order, to its queue and nothing else in the queue changes |
| LegacyGit.Coalescing | lib/git.js:146-155 | N concurrent callers cause one read and all receive its one outcome, in order |
| LegacyGit.CommitEntriesNeverExpire | lib/git.js:168 | an entry read at a commit gets no timer and keeps being served |
| LegacyGit.ServedFromCache | lib/git.js:144 | a cached key is served to every caller without a change |
| LegacyGit.FsEntriesExpire | lib/git.js:157-163 | a successful "fs" read sets the 100 ms timer, after which the next call reads again |
| LegacyGit.GroupCache.constructor | lib/git.js:125-126 | empty cache and queue |
| LegacyGit.GroupCache.Request | lib/git.js:142-148 | the dictionaries change as `RequestStep` says |
| LegacyGit.GroupCache.Complete | lib/git.js:149-155 | the flush loop runs first, then the cache write, then the queue is cleared, as `CompleteStep` says |
| LegacyGit.GroupCache.Expire | lib/git.js:162 | `fileCache[key] = false` as `ExpireStep` says |
| LegacyGit.Latin1 | lib/git.js:107 | the binary encoding maps each byte to the character of that code |
| LegacyGit.Latin1Chunks | lib/git.js:108-110 | each stdout chunk arrives as its binary string |
| LegacyGit.Latin1Joins | lib/git.js:119 | joining the binary chunk strings equals the binary string of all bytes |
| LegacyGit.Latin1Append | lib/git.js:119 | the binary string of appended bytes is the appended strings |
| LegacyGit.DecodeEach | lib/git.js:116 | each stderr chunk is decoded on its own |
| LegacyGit.Classify | lib/git.js:114-120 | a code above 0 fails with "git " + argv + "\n" + the stderr strings, never tagged not-found; otherwise stdout as one binary string |
| LegacyGit.JoinStrings | lib/git.js:116 | the `join('')` loop concatenates in order |
| LegacyGit.Concat | lib/git.js:116-119 | `join('')` of strings: their concatenation in order |
| LegacyGit.LegacyProcess.Spawn | lib/git.js:104-106 | a child starts with the full argument vector and no output |
| LegacyGit.LegacyProcess.OnStdout | lib/git.js:108-110 | a stdout chunk is appended, stderr is kept |
| LegacyGit.LegacyProcess.OnStderr | lib/git.js:111-113 | a stderr chunk is appended, stdout is kept |
| LegacyGit.LegacyProcess.OnExit | lib/git.js:114-120 | the callback gets `Classify` of what arrived |
| LegacyGit.ShowRunsKey | lib/git.js:168 | `show` runs with exactly the key version:path, the command lib/git-fs.js runs |
| LegacyGit.ReadFileSha | lib/git.js:168 | an error exactly for a code above 0, namely `Classify`'s error for `show key`, else the binary string of stdout |
| LegacyGit.ReadFileFs | lib/git.js:158-160 | the binary string of the file, or the file-system error unchanged |
| LegacyGit.EmptyFileNotCached | lib/git.js:153-162 | an empty file is not cached yet still sets the timer |
| LegacyGit.ReadDirSha | lib/git.js:236-258 | an error is passed on, a non-tree is an error, a tree gives its listing |
| LegacyGit.Resolve | lib/git.js:72-99 | a resolved id is the sha preceding " " + ref in packed-refs, for the ref named by HEAD; the run never completes exactly when both reads succeed and one of the files is empty |
| LegacyGit.VariantsAgreeWithoutLooseRef | lib/git.js:89-91 | without a loose ref both variants resolve the same |
| LegacyGit.LooseRefIgnored | lib/git.js:89-91 | a loose ref file that lib/git-fs.js would use makes no difference here |
| LegacyGit.EmptyRefDiffers | lib/git.js:86-91 | for HEAD `ref: \n` and packed-refs starting `<sha> `, this variant resolves to that sha, while lib/git-fs.js never completes |

## Left out

- The expiry and completion timing of `setTimeout` and `process.nextTick`. Each timer is the explicit expiry event, and delivery is immediate.
- Re-entrant calls made from inside a callback during a flush. These, and a callback that throws during a flush (lib/git-fs.js has by then cached the value, lib/git.js never writes it), are where the git-fs write-then-flush order differs observably from the git.js flush-then-write order. Both orders are kept in the class methods, but the spec functions give the same result for them.
- A callback that throws during a flush. In the source the exception leaves the rest of the queue uncalled and the key pending. The model treats callbacks as returning.
- The live `readDir` of the work tree. This is the `readdir` + `stat` fan-out with its `count--` countdown (lib/git-fs.js:311-333, lib/git.js:208-231). It never answers for an empty directory and can answer more than once on errors.
- The `NODE_ENV === 'test'` override of the cache life (lib/git-fs.js:33-35). It depends on the environment.
- The value of `CACHE_LIFE[0]`. The model keeps the code value 36300000 ms (about ten hours), although the comment beside it says one hour.
- Text decoding (`Buffer.toString` with utf8, ascii and so on). It is the opaque `Decoder`.
- `Path.join` normalisation of `.`, `..` and repeated separators. `Repo.JoinPath` only inserts "/".
- Reading the work tree before the repository has been opened, or with no work tree. This depends on how the runtime treats an undefined path.
- Ref names as regular expressions. packed-refs is searched for `" " + ref` taken literally, whereas the source builds a RegExp from the ref.
- lib/git.js's HEAD and packed-refs reads are modelled as text. The source reads them without an encoding, which is a Buffer on runtimes that return Buffers. There `head.match` (lib/git.js:90) is not a function, so every lib/git.js resolution fails through the `catch` into `groupCallback(err)`; and an empty Buffer is truthy, so the stall on an empty file that `LegacyGit.Resolve` states cannot arise there.
- Output that arrives after `exit` in lib/git.js. The model assumes all chunks precede the `exit` event.
- An explicit `null` encoding given to git-fs `readFile`. Its key ends in ":" and differs from the key without an encoding.
- The order of an object's properties when it is enumerated, beyond insertion order.
- A second `groupCallback` when both reads of `getHeadSha` fail, and a stale timer clearing an entry that was written again later.
- GitFs.ReadDirSha, LegacyGit.ReadDirSha: model the evidently intended "not a directory" error outcome (with the suffix " is not a directory"). As written, building that error reads the variable `combined`, which is never declared, and throws a ReferenceError (lib/git-fs.js:287, lib/git.js:240); see "## Findings". In lib/git-fs.js the throw happens inside the `readFile` flush, so the `readDir` key stays pending for ever, the rest of that flush is skipped and the exception is uncaught. In lib/git.js it happens inside the `readFile` group callback's flush, before `fileCache[key]` is written and `fileQueue[key]` is cleared (lib/git.js:150-154), so the file key stays pending as well. `GitFs.ReadDirShaAsWritten` states the throw; the rest of the cache states after it are not modelled.
- The module variables `gitCommands`, `gitDir` and `workTree` and the caches are process-wide. `Repo.Open` threads the previous variables explicitly, but the caches are not keyed by repository: entries read from one repository are served after another is opened, which the model does not state.
- The uncaught exception of a log record without `commit <sha>`, a blank line or any header line. It is modelled as `GitFs.Throws`: no callback is made and the key stays pending.
- Process-wide `uncaughtException` handling and process termination.

## Findings

| source | as written | input that shows it | evidently intended | confidence | as-written member | corrected member |
|---|---|---|---|---|---|---|
| lib/git-fs.js:287 | `callback(new Error(combined + " is not a directory"))` reads the undeclared variable `combined`, which throws a ReferenceError (lib/git.js:240 is the same code) | `readDir` at a sha of a path that is a blob, so `git show` prints no `tree ` header | call back with an error whose message ends in " is not a directory" | not executed | GitFs.NonTreeThrowsAsWritten | GitFs.ReadDirSha |
| lib/git-fs.js:139 | `gitExec(["gc"], function (err) { getHEAD(); })` binds the continuation to `encoding`, the second parameter of `gitExec(commands, encoding, callback)` (lib/git-fs.js:188). `callback` is then undefined and `getHEAD` is never called | a repository without a packed-refs file: `getHEAD` is never reached, so no caller of `getHeadSha` is ever answered | pass the continuation as the callback, so the refs are read once `gc` has finished | not executed | HeadSha.GcAsWrittenNeverReadsRefs | HeadSha.GcCallReadsRefs |
