/** The git subprocess of lib/git-fs.js (`gitExec`): the argument vector, the
    capture of stdout and stderr as raw chunks, and the classification of the
    result by exit code and by the not-found pattern `gitENOENT`. */
module Exec {
  import opened Wrappers
  import opened Text
  import opened GitTypes
  import Tools

  const PathPrefix: string := "Path '"
  const PathMiddle: string := "' does not exist in '"
  const RevisionPrefix: string := "ambiguous argument '"
  const RevisionSuffix: string := "': unknown revision or path not in the working tree"

  /** `Path '([^']+)' does not exist in '([0-9a-f]{40})'` matches at `j`: the
      quoted path is everything up to the next quote, and must not be empty. */
  predicate PathMissingAt(m: string, j: nat) {
    && StartsAt(m, j, PathPrefix)
    && var q := IndexOfFrom(m, '\'', j + |PathPrefix|);
    && q > j + |PathPrefix|
    && StartsAt(m, q, PathMiddle)
    && Hex40At(m, q + |PathMiddle|)
    && StartsAt(m, q + |PathMiddle| + 40, "'")
  }

  /** `ambiguous argument '([^']+)': unknown revision or path not in the working tree.`
      matches at `j`; the final unescaped `.` is any character but a line terminator. */
  predicate UnknownRevisionAt(m: string, j: nat) {
    && StartsAt(m, j, RevisionPrefix)
    && var q := IndexOfFrom(m, '\'', j + |RevisionPrefix|);
    && q > j + |RevisionPrefix|
    && StartsAt(m, q, RevisionSuffix)
    && q + |RevisionSuffix| < |m|
    && m[q + |RevisionSuffix|] !in LineTerminators
  }

  /** The regular expression `gitENOENT` matches at position `i`. */
  predicate NotFoundAt(m: string, i: nat) {
    StartsAt(m, i, "fatal: ") && (PathMissingAt(m, i + 7) || UnknownRevisionAt(m, i + 7))
  }

  /** `gitENOENT.test(m)`: an unanchored search. */
  ghost predicate ReportsNotFound(m: string) {
    exists i :: 0 <= i <= |m| && NotFoundAt(m, i)
  }

  /** The search `test` performs, from position `from` on. */
  function SearchNotFound(m: string, from: nat): (found: bool)
    requires from <= |m|
    ensures found <==> exists i :: from <= i <= |m| && NotFoundAt(m, i)
    decreases |m| - from
  {
    if NotFoundAt(m, from) then true
    else if from == |m| then false
    else
      var rest := SearchNotFound(m, from + 1);
      assert rest <==> exists i :: from + 1 <= i <= |m| && NotFoundAt(m, i);
      assert !rest ==> forall i :: from <= i <= |m| ==> !NotFoundAt(m, i) by {
        if !rest {
          forall i | from <= i <= |m| ensures !NotFoundAt(m, i) {
            if i > from { assert !(from + 1 <= i <= |m| && NotFoundAt(m, i)) || rest; }
          }
        }
      }
      rest
  }

  /** The message of a failed run: the command line, a newline, and stderr. */
  function FailureMessage(argv: seq<string>, stderrText: string): string {
    "git " + JoinWith(argv, " ") + "\n" + stderrText
  }

  datatype ExecResult = Failed(error: GitError) | Output(payload: Tools.Payload)

  /** What `gitExec` calls back with once the child has closed. A missing exit
      code (the child was killed by a signal) is not `> 0`, so counts as success.
      stderr is decoded as utf8 after joining; the error is tagged not-found
      exactly when the whole message matches `gitENOENT`. */
  function Classify(argv: seq<string>, stdout: seq<seq<Tools.byte>>, stderr: seq<seq<Tools.byte>>,
                    exitCode: Option<int>, encoding: Option<string>, decode: Tools.Decoder): (r: ExecResult)
    ensures r.Failed? <==> exitCode.Some? && exitCode.value > 0
    ensures r.Failed? ==> r.error.message == FailureMessage(argv, decode("utf8", Tools.Flatten(stderr)))
    ensures r.Failed? ==> (r.error.kind == NotFound <==> ReportsNotFound(r.error.message))
    ensures r.Failed? ==> r.error.kind == NotFound || r.error.kind == ProcessFailure
    ensures r.Output? ==> r.payload == Tools.Joined(stdout, encoding, decode)
  {
    if exitCode.Some? && exitCode.value > 0 then
      var message := FailureMessage(argv, decode("utf8", Tools.Flatten(stderr)));
      Failed(GitError(if SearchNotFound(message, 0) then NotFound else ProcessFailure, message))
    else Output(Tools.Joined(stdout, encoding, decode))
  }

  /** One spawned git child: its argument vector and what its streams and its
      `exit` event have delivered so far. */
  class GitProcess {
    const argv: seq<string>
    var stdout: seq<array<Tools.byte>>
    var stderr: seq<array<Tools.byte>>
    var exitCode: Option<int>

    /** `ChildProcess.spawn("git", gitCommands.concat(commands))`. */
    constructor Spawn(gitCommands: seq<string>, commands: seq<string>)
      ensures argv == gitCommands + commands
      ensures stdout == [] && stderr == [] && exitCode == None
    {
      argv := gitCommands + commands;
      stdout, stderr, exitCode := [], [], None;
    }

    /** A `data` event on stdout: the chunk is kept as it is, undecoded. */
    method OnStdout(text: array<Tools.byte>)
      modifies this
      ensures stdout == old(stdout) + [text]
      ensures stderr == old(stderr) && exitCode == old(exitCode)
    {
      stdout := stdout + [text];
    }

    /** A `data` event on stderr. */
    method OnStderr(text: array<Tools.byte>)
      modifies this
      ensures stderr == old(stderr) + [text]
      ensures stdout == old(stdout) && exitCode == old(exitCode)
    {
      stderr := stderr + [text];
    }

    /** The `exit` event; `None` is the `null` code of a child killed by a signal. */
    method OnExit(code: Option<int>)
      modifies this
      ensures exitCode == code
      ensures stdout == old(stdout) && stderr == old(stderr)
    {
      exitCode := code;
    }

    /** The `close` event: what `gitExec` passes to its callback. */
    method OnClose(encoding: Option<string>, decode: Tools.Decoder) returns (r: ExecResult)
      ensures r == Classify(argv, Tools.Contents(stdout), Tools.Contents(stderr), exitCode, encoding, decode)
    {
      if exitCode.Some? && exitCode.value > 0 {
        var text := Tools.Join(stderr, Some("utf8"), decode);
        var message := "git " + JoinWith(argv, " ") + "\n" + text.text;
        var enoent := SearchNotFound(message, 0);
        r := Failed(GitError(if enoent then NotFound else ProcessFailure, message));
      } else {
        var out := Tools.Join(stdout, encoding, decode);
        r := Output(out);
      }
    }
  }

  lemma IndexOfFromAt(s: string, c: char, from: nat, q: nat)
    requires from <= q < |s| && s[q] == c
    requires forall k :: from <= k < q ==> s[k] != c
    ensures IndexOfFrom(s, c, from) == q
  {
  }

  /** The `Path '…' does not exist in '<sha>'` alternative matches git's
      message right after whatever precedes it. */
  lemma PathMissingAtMessage(head: string, path: string, sha: string)
    requires |path| > 0 && forall k :: 0 <= k < |path| ==> path[k] != '\''
    requires |sha| == 40 && forall k :: 0 <= k < 40 ==> IsLowerHex(sha[k])
    ensures PathMissingAt(head + PathPrefix + path + PathMiddle + sha + "'", |head|)
  {
    var m := head + PathPrefix + path + PathMiddle + sha + "'";
    var p := |head| + |PathPrefix|;
    var q := p + |path|;
    var h := q + |PathMiddle|;
    assert m[|head|..p] == PathPrefix;
    assert forall k :: p <= k < q ==> m[k] == path[k - p];
    assert m[q..h] == PathMiddle;
    IndexOfFromAt(m, '\'', p, q);
    assert forall k :: h <= k < h + 40 ==> m[k] == sha[k - h];
    assert m[h + 40..h + 41] == "'";
  }

  /** The exact message git prints for a path missing at a revision is
      classified as not found, wherever it stands in the message. */
  lemma PathMissingIsNotFound(prefix: string, path: string, sha: string)
    requires |path| > 0 && forall k :: 0 <= k < |path| ==> path[k] != '\''
    requires |sha| == 40 && forall k :: 0 <= k < 40 ==> IsLowerHex(sha[k])
    ensures ReportsNotFound(prefix + "fatal: " + PathPrefix + path + PathMiddle + sha + "'")
  {
    var m := prefix + "fatal: " + PathPrefix + path + PathMiddle + sha + "'";
    var i := |prefix|;
    PathMissingAtMessage(prefix + "fatal: ", path, sha);
    assert m[i..i + 7] == "fatal: ";
    assert NotFoundAt(m, i);
  }
}
