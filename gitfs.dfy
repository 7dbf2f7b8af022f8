/** The readers of lib/git-fs.js that the `safe` caches wrap, with the I/O they
    wait for given as parameters: what git printed and its exit code, or what
    the file system returned. Each producer ends by calling the completion the
    cache gave it, or by throwing, in which case nobody is called back. */
module GitFs {
  import opened Wrappers
  import opened Text
  import opened GitTypes
  import Tools
  import Repo
  import Exec
  import TreeText
  import LogText
  import Safe
  import HeadRef

  /** Where a read of a version is served from. */
  datatype Source = Subprocess | FileSystem

  /** `version.length === 40`, in UTF-16 code units: a commit id goes to git,
      anything else to the file system. */
  function Dispatch(version: string): (s: Source)
    ensures s == Subprocess <==> Utf16Length(version) == 40
  {
    if Utf16Length(version) == 40 then Subprocess else FileSystem
  }

  /** For the versions `safe` lets through, git serves the 40-character ones and
      the file system serves exactly "fs". */
  lemma DispatchOfValidVersion(version: string)
    requires Safe.ValidVersion(version)
    ensures Dispatch(version) == FileSystem <==> version == "fs"
  {
  }

  /** How a producer run ends: with the outcome it hands to its completion, or
      with an exception, after which its waiters are never called. */
  datatype ProducerEnd = Completes(outcome: Outcome) | Throws

  /** The call of a decorated reader with its callback removed: the arguments `safe` keys on. */
  function ReadFileArgs(version: string, path: string, encoding: Option<string>): (args: seq<string>)
    ensures |args| >= 2 && args[0] == version && args[1] == path
    ensures Safe.KeyOf(args) == version + ":" + path + (if encoding.Some? then ":" + encoding.value else "")
  {
    if encoding.Some? then
      var args := [version, path, encoding.value];
      assert args[1..] == [path, encoding.value] && args[1..][1..] == [encoding.value];
      assert JoinWith([path, encoding.value], ":") == path + ":" + encoding.value;
      assert JoinWith(args, ":") == version + ":" + (path + ":" + encoding.value);
      args
    else
      var args := [version, path];
      assert args[1..] == [path];
      assert JoinWith(args, ":") == version + ":" + path;
      args
  }

  /** `["show", version + ":" + path]`. */
  function ShowCommand(version: string, path: string): seq<string> {
    ["show", version + ":" + path]
  }

  /** An outcome of `gitExec` as its callback receives it. */
  function ExecOutcome(r: Exec.ExecResult): (o: Outcome)
    ensures r.Failed? ==> o == Failure(r.error)
    ensures r.Output? ==> o == Success(FromPayload(r.payload))
  {
    match r
    case Failed(e) => Failure(e)
    case Output(p) => Success(FromPayload(p))
  }

  /** `readFile` at a commit: `git show <version>:<path>`, passing gitExec's
      callback through; the content is a Buffer without an encoding, a string with one. */
  function ReadFileSha(repo: Repo.Repo, version: string, path: string, encoding: Option<string>,
                       stdout: seq<seq<Tools.byte>>, stderr: seq<seq<Tools.byte>>,
                       exitCode: Option<int>, decode: Tools.Decoder): (o: Outcome)
    requires Repo.WellFormed(repo)
    ensures o.err.Some? <==> exitCode.Some? && exitCode.value > 0
    ensures o.err.Some? ==> o.err.value == Exec.Classify(Repo.Argv(repo, ShowCommand(version, path)), stdout, stderr, exitCode, encoding, decode).error
    ensures o.err.None? ==> o.value.Some? && (o.value.value.Buffer? <==> !Tools.Requested(encoding))
    ensures o.err.None? && !Tools.Requested(encoding) ==> o.value.value == Buffer(Tools.Flatten(stdout))
    ensures o.err.None? && Tools.Requested(encoding) ==> o.value.value == Str(decode(encoding.value, Tools.Flatten(stdout)))
  {
    ExecOutcome(Exec.Classify(Repo.Argv(repo, ShowCommand(version, path)), stdout, stderr, exitCode, encoding, decode))
  }

  /** The file read from the work tree, `Path.join(workTree, path)`. */
  function FsPath(repo: Repo.Repo, path: string): Option<string> {
    if repo.workTree.Some? then Some(Repo.JoinPath(repo.workTree.value, path)) else None
  }

  /** `readFile` from the work tree: `fs.readFile(file, encoding, …)` gives a
      Buffer without an encoding and the decoded text with one; a not-found
      error has the quoted path appended to its message. */
  function ReadFileFs(path: string, encoding: Option<string>, read: Result<seq<Tools.byte>, IoError>,
                      decode: Tools.Decoder): (o: Outcome)
    ensures read.Ok? ==> o.err.None? && o.value.Some? && (o.value.value.Buffer? <==> !Tools.Requested(encoding))
    ensures read.Ok? && !Tools.Requested(encoding) ==> o == Success(Buffer(read.value))
    ensures read.Ok? && Tools.Requested(encoding) ==> o == Success(Str(decode(encoding.value, read.value)))
    ensures read.Err? ==> o.err.Some? && o.value.None?
    ensures read.Err? ==> (o.err.value.kind == NotFound <==> read.error.enoent)
    ensures read.Err? && read.error.enoent ==> o.err.value.message == read.error.message + " " + JsonQuote(path)
    ensures read.Err? && !read.error.enoent ==> o.err.value == GitError(IoFailure, read.error.message)
  {
    match read
    case Ok(bytes) =>
      Tools.FlattenSingle(bytes);
      Success(FromPayload(Tools.Joined([bytes], encoding, decode)))
    case Err(e) =>
      var message := if e.enoent then e.message + " " + JsonQuote(path) else e.message;
      Failure(GitError(if e.enoent then NotFound else IoFailure, message))
  }

  /** `readDir` at a commit reads the tree through the `readFile` cache, as text. */
  function ReadDirFileArgs(version: string, path: string): (args: seq<string>)
    ensures args == ReadFileArgs(version, path, Some("utf-8"))
    ensures Safe.KeyOf(args) == version + ":" + path + ":utf-8"
  {
    ReadFileArgs(version, path, Some("utf-8"))
  }

  /** The message suffix of a version that is not a directory; its prefix is a
      variable the source never defines. */
  const NotADirectory: string := " is not a directory"

  /** The callback `readDir` gives `readFile`, applied to the text outcome
      `readFile` calls it with: an error is passed on, text that is no tree is an
      error, and a tree gives its listing. */
  function ReadDirSha(o: Outcome): (d: Outcome)
    requires o.err.Some? || (o.value.Some? && o.value.value.Str?)
    ensures o.err.Some? ==> d == Failure(o.err.value)
    ensures o.err.None? ==> (d.err.Some? <==> TreeText.ParseTree(o.value.value.text).None?)
    ensures o.err.None? && d.err.Some? ==> d.err.value == GitError(ParseFailure, NotADirectory)
    ensures o.err.None? && d.err.None? ==> d == Success(Listing(TreeText.ParseTree(o.value.value.text).value))
  {
    if o.err.Some? then Failure(o.err.value)
    else
      match TreeText.ParseTree(o.value.value.text)
      case None => Failure(GitError(ParseFailure, NotADirectory))
      case Some(listing) => Success(Listing(listing))
  }

  /** A directory listing is truthy, so a tree read is cached by the `readDir` cache. */
  lemma ListingIsCached(o: Outcome)
    requires o.err.Some? || (o.value.Some? && o.value.value.Str?)
    ensures Safe.Cacheable(ReadDirSha(o)) <==> o.err.None? && TreeText.ParseTree(o.value.value.text).Some?
  {
  }

  /** The callback of `readDir` as written: its non-tree branch evaluates
      `combined`, a name declared nowhere, so it throws a ReferenceError instead
      of calling back. */
  function ReadDirShaAsWritten(o: Outcome): (e: ProducerEnd)
    requires o.err.Some? || (o.value.Some? && o.value.value.Str?)
    ensures e.Throws? <==> o.err.None? && TreeText.ParseTree(o.value.value.text).None?
    ensures e.Completes? ==> e.outcome == ReadDirSha(o)
  {
    if o.err.None? && TreeText.ParseTree(o.value.value.text).None? then Throws
    else Completes(ReadDirSha(o))
  }

  /** Reading a file that is no tree as a directory throws as written, where the
      intended callback gets a "not a directory" error. */
  lemma NonTreeThrowsAsWritten(text: string)
    requires |text| < 5 || text[..5] != TreeText.TreePrefix
    ensures ReadDirShaAsWritten(Success(Str(text))) == Throws
    ensures ReadDirSha(Success(Str(text))) == Failure(GitError(ParseFailure, NotADirectory))
  {
    TreeText.BlobIsNotTree(text);
  }

  /** `["log", "-z", "--summary", version, "--", path]`. */
  function LogCommand(version: string, path: string): seq<string> {
    ["log", "-z", "--summary", version, "--", path]
  }

  /** `logFile`: git's error, or the history parsed from its utf8 output; a
      record the parser cannot read throws. */
  function LogFileEnd(repo: Repo.Repo, version: string, path: string,
                      stdout: seq<seq<Tools.byte>>, stderr: seq<seq<Tools.byte>>,
                      exitCode: Option<int>, decode: Tools.Decoder): (e: ProducerEnd)
    requires Repo.WellFormed(repo)
    ensures exitCode.Some? && exitCode.value > 0 ==>
      e == Completes(Failure(Exec.Classify(Repo.Argv(repo, LogCommand(version, path)), stdout, stderr, exitCode, Some("utf8"), decode).error))
    ensures !(exitCode.Some? && exitCode.value > 0) ==>
      var parsed := LogText.ParseLog(decode("utf8", Tools.Flatten(stdout)));
      (e.Throws? <==> parsed.None?) && (e.Completes? ==> e.outcome == Success(parsed.value))
  {
    match Exec.Classify(Repo.Argv(repo, LogCommand(version, path)), stdout, stderr, exitCode, Some("utf8"), decode)
    case Failed(err) => Completes(Failure(err))
    case Output(p) =>
      match LogText.ParseLog(p.text)
      case None => Throws
      case Some(v) => Completes(Success(v))
  }

  /** What `Git.getHead` does: answer "fs" for a work tree unless the head commit
      is forced, otherwise ask `getHeadSha`. */
  datatype HeadChoice = WorkTreeVersion | HeadCommit

  function GetHead(hasWorkTree: bool, forceHead: bool): (c: HeadChoice)
    ensures c == WorkTreeVersion <==> hasWorkTree && !forceHead
  {
    if hasWorkTree && !forceHead then WorkTreeVersion else HeadCommit
  }

  /** After a bare repository is opened over an earlier work tree, `getHead`
      still answers "fs" and the work-tree reads go to the earlier tree. */
  lemma BareOpenKeepsOldWorkTree(prev: Repo.Repo, repo: string, path: string)
    requires prev.workTree.Some?
    ensures var r := Repo.Open(Some(prev), repo, true, false);
      && r.Ok? && GetHead(r.value.workTree.Some?, false) == WorkTreeVersion
      && FsPath(r.value, path) == Some(Repo.JoinPath(prev.workTree.value, path))
  {
  }

  /** The version `getHead` answers with when it does not ask for the sha. */
  const FsVersion: string := "fs"

  /** `Git.log`: on the head sha's outcome, pass an error on, or call `logFile`
      with the sha and the path. */
  datatype LogNext = Deliver(outcome: Outcome) | CallLogFile(args: seq<string>)

  function LogAfterHead(sha: Outcome, path: string): (n: LogNext)
    requires sha.err.Some? || (sha.value.Some? && sha.value.value.Str?)
    ensures sha.err.Some? ==> n == Deliver(Failure(sha.err.value))
    ensures sha.err.None? ==> n == CallLogFile([sha.value.value.text, path])
  {
    if sha.err.Some? then Deliver(Failure(sha.err.value)) else CallLogFile([sha.value.value.text, path])
  }

  /** The sha a resolution of HEAD yields always passes `safe`'s version check
      and is served by git, so `Git.log` never sees "Invalid version". */
  lemma HeadShaIsValidVersion(packed: Result<string, IoError>, head: Result<string, IoError>,
                              loose: Result<string, IoError>, packedFirst: bool, path: string)
    requires HeadRef.Resolve(packed, head, loose, packedFirst).Resolved?
    ensures var sha := HeadRef.Resolve(packed, head, loose, packedFirst).sha;
      && Safe.ValidVersion(sha) && Dispatch(sha) == Subprocess
      && LogAfterHead(Success(Str(sha)), path) == CallLogFile([sha, path])
      && Safe.RequestStep(Safe.Empty, [sha, path], 0).1.Started?
  {
    BmpLength(HeadRef.Resolve(packed, head, loose, packedFirst).sha);
  }

  /** "fs", which `getHead` gives for a work tree, is valid and read from disk. */
  lemma WorkTreeVersionIsValid()
    ensures Safe.ValidVersion(FsVersion) && Dispatch(FsVersion) == FileSystem
  {
  }
}
