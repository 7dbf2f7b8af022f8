/** lib/git.js, the earlier variant of the same library: group caches per file
    and per directory without a version check, cache writes after the flush,
    entries of commits that never expire, git output read at `exit` as binary
    strings, and the head commit taken from packed-refs alone. */
module LegacyGit {
  import opened Wrappers
  import opened Text
  import opened GitTypes
  import Tools
  import Repo
  import Exec
  import HeadRef
  import Safe
  import GitFs
  import TreeText

  /** The delay after which an entry read from the work tree is dropped. */
  const FsLife: nat := 100

  /** `version + ":" + path`. */
  function Key(version: string, path: string): string {
    version + ":" + path
  }

  /** Which version a read uses: the one given, "fs" on a work tree, or the
      head commit, asked of `getHeadSha` before calling again. */
  datatype Target = ReadAt(version: string) | AskHead

  function DefaultVersion(hasWorkTree: bool, version: Option<string>): (t: Target)
    ensures version.Some? ==> t == ReadAt(version.value)
    ensures version.None? && hasWorkTree ==> t == ReadAt("fs")
    ensures version.None? && !hasWorkTree ==> t == AskHead
  {
    match version
    case Some(v) => ReadAt(v)
    case None => if hasWorkTree then ReadAt("fs") else AskHead
  }

  /** The callback given to `getHeadSha`: its error goes straight to the caller,
      its sha becomes the version of a second call. */
  datatype HeadNext = PassError(error: GitError) | CallAgain(version: string)

  function AfterHead(o: Outcome): (n: HeadNext)
    requires o.err.Some? || (o.value.Some? && o.value.value.Str?)
    ensures o.err.Some? ==> n == PassError(o.err.value)
    ensures o.err.None? ==> n == CallAgain(o.value.value.text)
  {
    if o.err.Some? then PassError(o.err.value) else CallAgain(o.value.value.text)
  }

  /** The second call made after a resolved head never asks for the head again. */
  lemma HeadShaIsUsedDirectly(hasWorkTree: bool, sha: string)
    ensures AfterHead(Success(Str(sha))) == CallAgain(sha)
    ensures DefaultVersion(hasWorkTree, Some(sha)) == ReadAt(sha)
  {
  }

  /** One run of a reader, and the key its group callback closes over. */
  datatype GroupRun = GroupRun(key: string, version: string, path: string)

  datatype GroupResponse = Served(value: Value) | Queued | Started(run: GroupRun)

  /** A call with an explicit version: there is no check of the version at all. */
  function RequestStep(s: Safe.CacheState, version: string, path: string, w: Waiter): (res: (Safe.CacheState, GroupResponse))
    requires Safe.Inv(s)
    ensures Safe.Inv(res.0)
    ensures Key(version, path) in s.cache ==> res == (s, Served(s.cache[Key(version, path)]))
    ensures res.1.Queued? <==> Key(version, path) !in s.cache && Key(version, path) in s.queue
    ensures res.1.Queued? ==> res.0 == s.(queue := s.queue[Key(version, path) := s.queue[Key(version, path)] + [w]])
    ensures res.1.Started? <==> Key(version, path) !in s.cache && Key(version, path) !in s.queue
    ensures res.1.Started? ==> res.0 == s.(queue := s.queue[Key(version, path) := [w]])
    ensures res.1.Started? ==> res.1.run == GroupRun(Key(version, path), version, path)
  {
    var key := Key(version, path);
    if key in s.cache then (s, Served(s.cache[key]))
    else if key in s.queue then (s.(queue := s.queue[key := s.queue[key] + [w]]), Queued)
    else (s.(queue := s.queue[key := [w]]), Started(GroupRun(key, version, path)))
  }

  /** Any version is accepted: even one `safe` in lib/git-fs.js would reject. */
  lemma NoVersionCheck(version: string, path: string, w: Waiter)
    ensures RequestStep(Safe.Empty, version, path, w).1 == Started(GroupRun(Key(version, path), version, path))
  {
  }

  /** `groupCallback`: every waiter called once, in order, with the one outcome;
      then a truthy value cached; then the queue dropped. A successful read of
      the work tree sets the 100 ms timer, whether or not its value was cached;
      nothing else ever does. */
  function CompleteStep(s: Safe.CacheState, run: GroupRun, o: Outcome): (res: (Safe.CacheState, seq<Delivery>, Option<nat>))
    requires Safe.Inv(s) && run.key in s.queue
    ensures Safe.Inv(res.0)
    ensures res.1 == Broadcast(s.queue[run.key], o)
    ensures res.0.queue == s.queue - {run.key}
    ensures Safe.Cacheable(o) ==> res.0.cache == s.cache[run.key := o.value.value]
    ensures !Safe.Cacheable(o) ==> res.0.cache == s.cache
    ensures res.2.Some? <==> run.version == "fs" && o.err.None?
    ensures res.2.Some? ==> res.2.value == FsLife
  {
    var cache' := if Safe.Cacheable(o) then s.cache[run.key := o.value.value] else s.cache;
    (Safe.CacheState(cache', s.queue - {run.key}), Broadcast(s.queue[run.key], o),
     if run.version == "fs" && o.err.None? then Some(FsLife) else None)
  }

  function ExpireStep(s: Safe.CacheState, key: string): (s': Safe.CacheState)
    requires Safe.Inv(s)
    ensures Safe.Inv(s') && key !in s'.cache && s'.queue == s.queue
  {
    s.(cache := s.cache - {key})
  }

  /** Callers made one after another with the same version and path. */
  function RequestAll(s: Safe.CacheState, version: string, path: string, ws: seq<Waiter>): (res: (Safe.CacheState, seq<GroupResponse>))
    requires Safe.Inv(s)
    ensures Safe.Inv(res.0) && |res.1| == |ws| && res.0.cache == s.cache
    decreases |ws|
  {
    if ws == [] then (s, [])
    else
      var first := RequestStep(s, version, path, ws[0]);
      var rest := RequestAll(first.0, version, path, ws[1..]);
      (rest.0, [first.1] + rest.1)
  }

  /** While a read is in flight, every further caller queues behind it in order. */
  lemma CallersQueueBehind(s: Safe.CacheState, version: string, path: string, ws: seq<Waiter>)
    requires Safe.Inv(s) && Key(version, path) in s.queue
    ensures var (s', rs) := RequestAll(s, version, path, ws);
            && (forall i :: 0 <= i < |ws| ==> rs[i] == Queued)
            && s' == s.(queue := s.queue[Key(version, path) := s.queue[Key(version, path)] + ws])
  {
    QueuedResponses(s, version, path, ws);
    QueuedState(s, version, path, ws);
  }

  lemma {:induction false} QueuedResponses(s: Safe.CacheState, version: string, path: string, ws: seq<Waiter>)
    requires Safe.Inv(s) && Key(version, path) in s.queue
    ensures forall i :: 0 <= i < |ws| ==> RequestAll(s, version, path, ws).1[i] == Queued
    decreases |ws|
  {
    if ws != [] {
      var s1 := QueuedStep(s, version, path, ws);
      QueuedResponses(s1, version, path, ws[1..]);
    }
  }

  lemma {:induction false} QueuedState(s: Safe.CacheState, version: string, path: string, ws: seq<Waiter>)
    requires Safe.Inv(s) && Key(version, path) in s.queue
    ensures RequestAll(s, version, path, ws).0.queue == s.queue[Key(version, path) := s.queue[Key(version, path)] + ws]
    decreases |ws|
  {
    var key := Key(version, path);
    if ws == [] {
      assert s.queue[key] + [] == s.queue[key];
      assert s.queue[key := s.queue[key]] == s.queue;
    } else {
      var s1 := QueuedStep(s, version, path, ws);
      QueuedState(s1, version, path, ws[1..]);
      Safe.QueueGrows(s.queue, s1.queue, key, ws);
    }
  }

  /** The first caller while the key is in flight queues; the others run from
      the state it leaves. */
  lemma QueuedStep(s: Safe.CacheState, version: string, path: string, ws: seq<Waiter>) returns (s1: Safe.CacheState)
    requires Safe.Inv(s) && Key(version, path) in s.queue && ws != []
    ensures Safe.Inv(s1) && Key(version, path) in s1.queue
    ensures s1.queue == s.queue[Key(version, path) := s.queue[Key(version, path)] + [ws[0]]]
    ensures RequestAll(s, version, path, ws)
         == (RequestAll(s1, version, path, ws[1..]).0, [Queued] + RequestAll(s1, version, path, ws[1..]).1)
  {
    s1 := RequestStep(s, version, path, ws[0]).0;
  }

  /** N concurrent callers of an uncached key cause one read or `git show`, and
      its completion calls all of them, in order, with the same outcome. */
  lemma {:induction false} Coalescing(s: Safe.CacheState, version: string, path: string, ws: seq<Waiter>, o: Outcome)
    requires Safe.Inv(s) && Key(version, path) !in s.cache && Key(version, path) !in s.queue && |ws| > 0
    ensures var (s', rs) := RequestAll(s, version, path, ws);
            && rs[0] == Started(GroupRun(Key(version, path), version, path))
            && (forall i :: 1 <= i < |ws| ==> rs[i] == Queued)
            && Key(version, path) in s'.queue
            && CompleteStep(s', rs[0].run, o).1 == Broadcast(ws, o)
  {
    var key := Key(version, path);
    var (s1, r1) := RequestStep(s, version, path, ws[0]);
    var (s2, rs) := RequestAll(s1, version, path, ws[1..]);
    CallersQueueBehind(s1, version, path, ws[1..]);
    assert [ws[0]] + ws[1..] == ws;
    assert s2.queue[key] == ws;
  }

  /** An entry read at a commit is never dropped: no timer is set for it, and
      later callers are served from the cache. */
  lemma CommitEntriesNeverExpire(s: Safe.CacheState, run: GroupRun, o: Outcome, ws: seq<Waiter>)
    requires Safe.Inv(s) && run.key in s.queue && run.version != "fs" && Safe.Cacheable(o)
    requires run.key == Key(run.version, run.path)
    ensures var (s', _, timer) := CompleteStep(s, run, o);
            && timer.None?
            && forall i :: 0 <= i < |ws| ==> RequestAll(s', run.version, run.path, ws).1[i] == Served(o.value.value)
  {
    var s' := CompleteStep(s, run, o).0;
    ServedFromCache(s', run.version, run.path, ws);
  }

  lemma {:induction false} ServedFromCache(s: Safe.CacheState, version: string, path: string, ws: seq<Waiter>)
    requires Safe.Inv(s) && Key(version, path) in s.cache
    ensures RequestAll(s, version, path, ws).0 == s
    ensures forall i :: 0 <= i < |ws| ==> RequestAll(s, version, path, ws).1[i] == Served(s.cache[Key(version, path)])
    decreases |ws|
  {
    if ws != [] {
      ServedFromCache(s, version, path, ws[1..]);
    }
  }

  /** A file or directory read from the work tree is dropped 100 ms after a
      successful read; once its timer fired the next call reads again. */
  lemma FsEntriesExpire(s: Safe.CacheState, path: string, o: Outcome, w: Waiter)
    requires Safe.Inv(s) && Key("fs", path) in s.queue && o.err.None?
    ensures var (s', _, timer) := CompleteStep(s, GroupRun(Key("fs", path), "fs", path), o);
            && timer == Some(FsLife)
            && RequestStep(ExpireStep(s', Key("fs", path)), "fs", path, w).1.Started?
  {
  }

  /** `fileCache`/`fileQueue` or `dirCache`/`dirQueue`, updated in place. */
  class GroupCache {
    var cache: map<string, Value>
    var queue: map<string, seq<Waiter>>

    function State(): Safe.CacheState
      reads this
    {
      Safe.CacheState(cache, queue)
    }

    ghost predicate Valid()
      reads this
    {
      Safe.Inv(State())
    }

    constructor ()
      ensures Valid() && State() == Safe.Empty
    {
      cache, queue := map[], map[];
    }

    /** `readFile(path, version, callback)` or `readDir(...)` with a version. */
    method Request(version: string, path: string, w: Waiter) returns (r: GroupResponse)
      requires Valid()
      modifies this
      ensures Valid()
      ensures (State(), r) == RequestStep(old(State()), version, path, w)
    {
      var key := version + ":" + path;
      if key in cache {
        r := Served(cache[key]);
        return;
      }
      if key in queue {
        queue := queue[key := queue[key] + [w]];
        r := Queued;
        return;
      }
      queue := queue[key := [w]];
      r := Started(GroupRun(key, version, path));
    }

    /** `groupCallback(err, data)`: flush the queue, then cache, then clear. */
    method Complete(run: GroupRun, o: Outcome) returns (deliveries: seq<Delivery>, timer: Option<nat>)
      requires Valid() && run.key in queue
      modifies this
      ensures Valid()
      ensures (State(), deliveries, timer) == CompleteStep(old(State()), run, o)
    {
      var localQueue := queue[run.key];
      deliveries := [];
      for i := 0 to |localQueue|
        invariant deliveries == Broadcast(localQueue[..i], o)
      {
        deliveries := deliveries + [Delivery(localQueue[i], o)];
      }
      assert localQueue[..|localQueue|] == localQueue;
      if o.value.Some? && Truthy(o.value.value) {
        cache := cache[run.key := o.value.value];
      }
      queue := queue - {run.key};
      timer := if run.version == "fs" && o.err.None? then Some(FsLife) else None;
    }

    /** The timer of a work-tree entry firing: `fileCache[key] = false`. */
    method Expire(key: string)
      requires Valid()
      modifies this
      ensures Valid() && State() == ExpireStep(old(State()), key)
    {
      cache := cache - {key};
    }
  }

  /** `setEncoding('binary')`: every byte becomes the character of that code. */
  function Latin1(bytes: seq<Tools.byte>): (text: string)
    ensures |text| == |bytes|
    ensures forall i :: 0 <= i < |bytes| ==> text[i] as int == bytes[i] as int
  {
    seq(|bytes|, i requires 0 <= i < |bytes| => bytes[i] as int as char)
  }

  /** `strings.join('')`. */
  function Concat(strings: seq<string>): string
    decreases |strings|
  {
    if strings == [] then "" else Concat(strings[..|strings| - 1]) + strings[|strings| - 1]
  }

  /** The binary strings of the chunks, in order. */
  function Latin1Chunks(chunks: seq<seq<Tools.byte>>): (texts: seq<string>)
    ensures |texts| == |chunks|
    ensures forall i :: 0 <= i < |chunks| ==> texts[i] == Latin1(chunks[i])
  {
    seq(|chunks|, i requires 0 <= i < |chunks| => Latin1(chunks[i]))
  }

  /** Decoding byte by byte commutes with joining: the joined binary strings are
      the binary string of the joined bytes, so chunk boundaries do not matter. */
  lemma {:induction false} Latin1Joins(chunks: seq<seq<Tools.byte>>)
    ensures Concat(Latin1Chunks(chunks)) == Latin1(Tools.Flatten(chunks))
    decreases |chunks|
  {
    if chunks != [] {
      var init := chunks[..|chunks| - 1];
      var last := chunks[|chunks| - 1];
      var texts := Latin1Chunks(chunks);
      Latin1Joins(init);
      assert texts[..|chunks| - 1] == Latin1Chunks(init);
      assert Concat(texts) == Concat(Latin1Chunks(init)) + Latin1(last);
      assert chunks == init + [last];
      Tools.FlattenAppend(init, [last]);
      Tools.FlattenSingle(last);
      Latin1Append(Tools.Flatten(init), last);
    }
  }

  lemma Latin1Append(a: seq<Tools.byte>, b: seq<Tools.byte>)
    ensures Latin1(a + b) == Latin1(a) + Latin1(b)
  {
  }

  /** Each stderr chunk turned into a string on its own by `join('')`. */
  function DecodeEach(chunks: seq<seq<Tools.byte>>, decode: Tools.Decoder): (texts: seq<string>)
    ensures |texts| == |chunks|
    ensures forall i :: 0 <= i < |chunks| ==> texts[i] == decode("utf8", chunks[i])
  {
    seq(|chunks|, i requires 0 <= i < |chunks| => decode("utf8", chunks[i]))
  }

  /** What `gitExec` calls back with at `exit`: on a code above 0 an error whose
      message holds the command line and each stderr chunk decoded on its own
      (never tagged not-found), otherwise stdout as one binary string. */
  function Classify(argv: seq<string>, stdout: seq<seq<Tools.byte>>, stderr: seq<seq<Tools.byte>>,
                    exitCode: Option<int>, decode: Tools.Decoder): (r: Exec.ExecResult)
    ensures r.Failed? <==> exitCode.Some? && exitCode.value > 0
    ensures r.Failed? ==> r.error == GitError(ProcessFailure,
      Exec.FailureMessage(argv, Concat(DecodeEach(stderr, decode))))
    ensures r.Output? ==> r.payload == Tools.Decoded(Latin1(Tools.Flatten(stdout)))
  {
    if exitCode.Some? && exitCode.value > 0 then
      Exec.Failed(GitError(ProcessFailure,
        Exec.FailureMessage(argv, Concat(DecodeEach(stderr, decode)))))
    else Exec.Output(Tools.Decoded(Latin1(Tools.Flatten(stdout))))
  }

  /** Joining `strings` with the loop `Array.prototype.join` runs. */
  method JoinStrings(strings: seq<string>) returns (text: string)
    ensures text == Concat(strings)
  {
    text := "";
    for i := 0 to |strings|
      invariant text == Concat(strings[..i])
    {
      assert strings[..i + 1][..i] == strings[..i];
      text := text + strings[i];
    }
    assert strings[..|strings|] == strings;
  }

  /** One git child of lib/git.js: stdout arrives as binary strings, stderr as
      raw chunks; the callback is made at `exit`. */
  class LegacyProcess {
    const argv: seq<string>
    var stdout: seq<string>
    ghost var stdoutBytes: seq<seq<Tools.byte>>
    var stderr: seq<seq<Tools.byte>>

    ghost predicate Valid()
      reads this
    {
      stdout == Latin1Chunks(stdoutBytes)
    }

    constructor Spawn(gitCommands: seq<string>, commands: seq<string>)
      ensures Valid() && argv == gitCommands + commands
      ensures stdoutBytes == [] && stderr == []
    {
      argv := gitCommands + commands;
      stdout, stdoutBytes, stderr := [], [], [];
    }

    method OnStdout(chunk: seq<Tools.byte>)
      requires Valid()
      modifies this
      ensures Valid() && stdoutBytes == old(stdoutBytes) + [chunk] && stderr == old(stderr)
    {
      stdout := stdout + [Latin1(chunk)];
      stdoutBytes := stdoutBytes + [chunk];
    }

    method OnStderr(chunk: seq<Tools.byte>)
      requires Valid()
      modifies this
      ensures Valid() && stderr == old(stderr) + [chunk] && stdoutBytes == old(stdoutBytes)
    {
      stderr := stderr + [chunk];
    }

    /** The `exit` listener. */
    method OnExit(code: Option<int>, decode: Tools.Decoder) returns (r: Exec.ExecResult)
      requires Valid()
      ensures r == Classify(argv, stdoutBytes, stderr, code, decode)
    {
      if code.Some? && code.value > 0 {
        var errText := JoinStrings(DecodeEach(stderr, decode));
        return Exec.Failed(GitError(ProcessFailure, "git " + JoinWith(argv, " ") + "\n" + errText));
      }
      var text := JoinStrings(stdout);
      Latin1Joins(stdoutBytes);
      r := Exec.Output(Tools.Decoded(text));
    }
  }

  /** `gitExec(["show", key], groupCallback)`. */
  function ShowCommand(key: string): seq<string> {
    ["show", key]
  }

  /** The git command a commit read runs is the key itself, and the same command
      lib/git-fs.js runs for that version and path. */
  lemma ShowRunsKey(version: string, path: string)
    ensures ShowCommand(Key(version, path)) == GitFs.ShowCommand(version, path)
    ensures ShowCommand(Key(version, path))[1] == version + ":" + path
  {
  }

  /** `readFile` at a commit: the group callback receives gitExec's result. */
  function ReadFileSha(repo: Repo.Repo, run: GroupRun, stdout: seq<seq<Tools.byte>>, stderr: seq<seq<Tools.byte>>,
                       exitCode: Option<int>, decode: Tools.Decoder): (o: Outcome)
    requires Repo.WellFormed(repo)
    ensures o.err.Some? <==> exitCode.Some? && exitCode.value > 0
    ensures o.err.Some? ==> o.err.value.kind == ProcessFailure
    ensures o.err.Some? ==> o.err.value == Classify(Repo.Argv(repo, ShowCommand(run.key)), stdout, stderr, exitCode, decode).error
    ensures o.err.None? ==> o == Success(Str(Latin1(Tools.Flatten(stdout))))
  {
    GitFs.ExecOutcome(Classify(Repo.Argv(repo, ShowCommand(run.key)), stdout, stderr, exitCode, decode))
  }

  /** `readFile` from the work tree, read as a binary string; the error is the
      file system's, unchanged. */
  function ReadFileFs(read: Result<seq<Tools.byte>, IoError>): (o: Outcome)
    ensures read.Ok? ==> o == Success(Str(Latin1(read.value)))
    ensures read.Err? ==> o == Failure(FromIo(read.error))
  {
    match read
    case Ok(bytes) => Success(Str(Latin1(bytes)))
    case Err(e) => Failure(FromIo(e))
  }

  /** An empty work-tree file is read but not cached, and still sets the timer. */
  lemma EmptyFileNotCached(s: Safe.CacheState, path: string)
    requires Safe.Inv(s) && Key("fs", path) in s.queue
    ensures var (s', _, timer) := CompleteStep(s, GroupRun(Key("fs", path), "fs", path), ReadFileFs(Ok([])));
            && Key("fs", path) !in s'.cache && timer == Some(FsLife)
  {
  }

  /** `readDir` at a commit reads the tree with `readFile(path, version)`, under
      the same key in the file cache; the tree rule is that of lib/git-fs.js. */
  function ReadDirSha(o: Outcome): (d: Outcome)
    requires o.err.Some? || (o.value.Some? && o.value.value.Str?)
    ensures o.err.Some? ==> d == Failure(o.err.value)
    ensures o.err.None? ==> (d.err.Some? <==> TreeText.ParseTree(o.value.value.text).None?)
    ensures o.err.None? && d.err.None? ==> d == Success(Listing(TreeText.ParseTree(o.value.value.text).value))
  {
    GitFs.ReadDirSha(o)
  }

  /** `checkDone` of lib/git.js: packed-refs and HEAD are read in parallel (the
      first failure to call back fails every waiter); an empty file of either is
      falsy and nothing happens; otherwise the id before `" " + ref` in
      packed-refs, an empty ref included, or a failure. */
  function Resolve(packed: Result<string, IoError>, head: Result<string, IoError>, packedFirst: bool): (r: HeadRef.Resolution)
    ensures r.Resolved? ==> HeadRef.IsSha(r.sha)
    ensures r.Resolved? ==>
      (packed.Ok? && head.Ok? && HeadRef.SymbolicRef(head.value).Some? &&
       HeadRef.PackedSha(packed.value, HeadRef.SymbolicRef(head.value).value) == Some(r.sha))
    ensures r.Stalled? <==> packed.Ok? && head.Ok? && (packed.value == "" || head.value == "")
  {
    if packed.Err? && (packedFirst || head.Ok?) then HeadRef.Failed(FromIo(packed.error))
    else if head.Err? then HeadRef.Failed(FromIo(head.error))
    else if packed.value == "" || head.value == "" then HeadRef.Stalled
    else
      match HeadRef.SymbolicRef(head.value)
      case None => HeadRef.Failed(HeadRef.NoMatch)
      case Some(ref) =>
        match HeadRef.PackedSha(packed.value, ref)
        case Some(sha) => HeadRef.Resolved(sha)
        case None => HeadRef.Failed(HeadRef.NoMatch)
    }

  /** Where no loose ref file holds content the two variants agree. */
  lemma VariantsAgreeWithoutLooseRef(packed: string, ref: string, loose: Result<string, IoError>, packedFirst: bool)
    requires packed != "" && ref != "" && OneLine(ref)
    requires loose.Err? || loose.value == ""
    ensures Resolve(Ok(packed), Ok("ref: " + ref + "\n"), packedFirst)
         == HeadRef.Resolve(Ok(packed), Ok("ref: " + ref + "\n"), loose, packedFirst)
  {
    HeadRef.SymbolicRefOf(ref);
  }

  /** A loose ref file is never consulted here: only packed-refs counts. */
  lemma LooseRefIgnored(packed: string, ref: string, sha: string, packedFirst: bool)
    requires packed != "" && OneLine(ref) && HeadRef.IsSha(sha)
    requires HeadRef.PackedSha(packed, ref).None?
    ensures Resolve(Ok(packed), Ok("ref: " + ref + "\n"), packedFirst) == HeadRef.Failed(HeadRef.NoMatch)
    ensures ref != "" ==> HeadRef.Resolve(Ok(packed), Ok("ref: " + ref + "\n"), Ok(sha + "\n"), packedFirst) == HeadRef.Resolved(sha)
  {
    HeadRef.SymbolicRefOf(ref);
    if ref != "" {
      var m := sha + "\n";
      assert m[..40] == sha && m[40..41] == "\n";
      assert HeadRef.ShaThen(m, 0, "\n");
      assert HeadRef.LooseSha(m) == Some(sha);
    }
  }

  /** An empty ref (`ref: \n`) still reads packed-refs here, while lib/git-fs.js
      waits for ever. */
  lemma EmptyRefDiffers(sha: string, rest: string, loose: Result<string, IoError>, packedFirst: bool)
    requires HeadRef.IsSha(sha)
    ensures Resolve(Ok(sha + " " + rest), Ok("ref: \n"), packedFirst) == HeadRef.Resolved(sha)
    ensures HeadRef.Resolve(Ok(sha + " " + rest), Ok("ref: \n"), loose, packedFirst) == HeadRef.Stalled
  {
    HeadRef.SymbolicRefOf("");
    assert "ref: " + "" + "\n" == "ref: \n";
    HeadRef.PackedLineFound("", sha, "", rest);
    assert "" + sha + " " + "" + rest == sha + " " + rest;
  }
}
