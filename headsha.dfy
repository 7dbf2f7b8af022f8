/** The single-value head-commit cache of `getHeadSha`: `shaCache`, the queue
    `shaQueue` of callers waiting for a resolution in flight, and the step that
    runs `git gc` when packed-refs is missing. The cache and queue code is the
    same in lib/git-fs.js and lib/git.js; only the resolution differs. */
module HeadSha {
  import opened Wrappers
  import opened GitTypes
  import HeadRef

  /** The life of a cached head commit, in milliseconds (`CACHE_LIFE[1]`). */
  const ShaLife: nat := 100

  /** `shaCache` (falsy: `None`) and `shaQueue` (falsy: `[]`; a queue in use is never empty). */
  datatype ShaState = ShaState(cache: Option<string>, queue: seq<Waiter>)

  const Idle: ShaState := ShaState(None, [])

  /** What a call of `getHeadSha` does. */
  datatype ShaResponse =
    | Cached(sha: string)             // answered from `shaCache`
    | Joined                          // added to the queue of the resolution in flight
    | NotConfigured(error: GitError)  // answered with "gitDir not set yet!"
    | Started                         // a new queue, and a new resolution

  /** While a resolution is in flight nothing is cached. */
  ghost predicate Inv(s: ShaState) {
    |s.queue| > 0 ==> s.cache.None?
  }

  /** A call of `getHeadSha`; `configured` says whether `gitDir` is set. The cache
      is asked first, then the queue, then `gitDir`. */
  function RequestStep(s: ShaState, configured: bool, w: Waiter): (res: (ShaState, ShaResponse))
    requires Inv(s)
    ensures Inv(res.0)
    ensures res.1.Cached? <==> s.cache.Some?
    ensures res.1.Cached? ==> res.1.sha == s.cache.value && res.0 == s
    ensures res.1.Joined? <==> s.cache.None? && |s.queue| > 0
    ensures res.1.Started? <==> s.cache.None? && |s.queue| == 0 && configured
    ensures res.1.Started? || res.1.Joined? ==> res.0 == s.(queue := s.queue + [w])
    ensures res.1.NotConfigured? ==> res.0 == s && res.1.error.kind == NoGitDir
  {
    if s.cache.Some? then (s, Cached(s.cache.value))
    else if |s.queue| > 0 then (s.(queue := s.queue + [w]), Joined)
    else if !configured then (s, NotConfigured(GitError(NoGitDir, "gitDir not set yet!")))
    else (s.(queue := [w]), Started)
  }

  /** `groupCallback` at the end of a resolution: every queued caller is called,
      in order, with the one outcome; a resolved id is cached (it was assigned
      before the flush) with a timer of `ShaLife`; an error is not cached. A
      stalled resolution never calls back, so nothing changes. */
  function FinishStep(s: ShaState, r: HeadRef.Resolution): (res: (ShaState, seq<Delivery>, Option<nat>))
    requires Inv(s) && |s.queue| > 0
    ensures Inv(res.0)
    ensures r.Stalled? ==> res == (s, [], None)
    ensures r.Resolved? ==> res.0 == ShaState(Some(r.sha), []) && res.2 == Some(ShaLife)
    ensures r.Failed? ==> res.0 == s.(queue := []) && res.2 == None
    ensures !r.Stalled? ==> res.1 == Broadcast(s.queue, if r.Resolved? then Success(Str(r.sha)) else Failure(r.error))
  {
    match r
    case Stalled => (s, [], None)
    case Resolved(sha) => (ShaState(Some(sha), []), Broadcast(s.queue, Success(Str(sha))), Some(ShaLife))
    case Failed(e) => (s.(queue := []), Broadcast(s.queue, Failure(e)), None)
  }

  /** The expiry timer: `shaCache = false`. */
  function ExpireStep(s: ShaState): (s': ShaState)
    requires Inv(s)
    ensures Inv(s') && s'.cache.None? && s'.queue == s.queue
  {
    s.(cache := None)
  }

  /** Callers `ws` arriving one after another. */
  function RequestAll(s: ShaState, configured: bool, ws: seq<Waiter>): (res: (ShaState, seq<ShaResponse>))
    requires Inv(s)
    ensures Inv(res.0) && |res.1| == |ws|
    decreases |ws|
  {
    if ws == [] then (s, [])
    else
      var first := RequestStep(s, configured, ws[0]);
      var rest := RequestAll(first.0, configured, ws[1..]);
      (rest.0, [first.1] + rest.1)
  }

  /** Callers who arrive while nothing is cached or pending: the first starts the
      only resolution, the others join it, and all of them wait in arrival order. */
  lemma {:induction false} OneResolutionForAll(s: ShaState, ws: seq<Waiter>)
    requires Inv(s) && s.cache.None? && |ws| > 0
    ensures var (s', rs) := RequestAll(s, true, ws);
            && (rs[0] == if |s.queue| == 0 then Started else Joined)
            && (forall i :: 1 <= i < |ws| ==> rs[i] == Joined)
            && s' == s.(queue := s.queue + ws)
    decreases |ws|
  {
    var (s1, r1) := RequestStep(s, true, ws[0]);
    if |ws| > 1 {
      OneResolutionForAll(s1, ws[1..]);
      assert s.queue + [ws[0]] + ws[1..] == s.queue + ws;
    }
  }

  /** N concurrent callers and one resolution: each is called exactly once, in
      arrival order, with the same outcome. */
  lemma CoalescedDelivery(ws: seq<Waiter>, r: HeadRef.Resolution)
    requires |ws| > 0 && !r.Stalled?
    ensures RequestAll(Idle, true, ws).0 == ShaState(None, ws)
    ensures var ds := FinishStep(ShaState(None, ws), r).1;
            |ds| == |ws| && forall i :: 0 <= i < |ws| ==> ds[i].waiter == ws[i] && ds[i].outcome == ds[0].outcome
  {
    OneResolutionForAll(Idle, ws);
    assert Idle.queue + ws == ws;
    var o := if r.Resolved? then Success(Str(r.sha)) else Failure(r.error);
    var ds := FinishStep(ShaState(None, ws), r).1;
    assert ds == Broadcast(ws, o);
    assert ds[0].outcome == o;
  }

  /** Once a resolution stalls, every later caller joins a queue that is never flushed. */
  lemma StalledQueueNeverAnswers(s: ShaState, configured: bool, w: Waiter)
    requires Inv(s) && |s.queue| > 0
    ensures var s' := FinishStep(s, HeadRef.Stalled).0; RequestStep(s', configured, w).1 == Joined
  {
  }

  /** The class holding the module-level `shaCache` and `shaQueue`. */
  class ShaCache {
    var shaCache: Option<string>
    var shaQueue: seq<Waiter>

    function State(): ShaState
      reads this
    {
      ShaState(shaCache, shaQueue)
    }

    ghost predicate Valid()
      reads this
    {
      Inv(State())
    }

    constructor ()
      ensures Valid() && State() == Idle
    {
      shaCache, shaQueue := None, [];
    }

    method Request(configured: bool, w: Waiter) returns (r: ShaResponse)
      requires Valid()
      modifies this
      ensures Valid()
      ensures (State(), r) == RequestStep(old(State()), configured, w)
    {
      if shaCache.Some? {
        r := Cached(shaCache.value);
      } else if |shaQueue| > 0 {
        shaQueue := shaQueue + [w];
        r := Joined;
      } else if !configured {
        r := NotConfigured(GitError(NoGitDir, "gitDir not set yet!"));
      } else {
        shaQueue := [w];
        r := Started;
      }
    }

    /** The end of a resolution; the loop is `groupCallback`'s over `shaQueue`. */
    method Finish(res: HeadRef.Resolution) returns (deliveries: seq<Delivery>, timer: Option<nat>)
      requires Valid() && |shaQueue| > 0
      modifies this
      ensures Valid()
      ensures (State(), deliveries, timer) == FinishStep(old(State()), res)
    {
      if res.Stalled? {
        deliveries, timer := [], None;
        return;
      }
      var outcome;
      if res.Resolved? {
        shaCache := Some(res.sha);
        outcome := Success(Str(res.sha));
        timer := Some(ShaLife);
      } else {
        outcome := Failure(res.error);
        timer := None;
      }
      deliveries := [];
      var i := 0;
      while i < |shaQueue|
        invariant 0 <= i <= |shaQueue|
        invariant deliveries == Broadcast(shaQueue[..i], outcome)
      {
        deliveries := deliveries + [Delivery(shaQueue[i], outcome)];
        i := i + 1;
      }
      assert shaQueue[..i] == shaQueue;
      shaQueue := [];
    }

    method Expire()
      requires Valid()
      modifies this
      ensures Valid() && State() == ExpireStep(old(State()))
    {
      shaCache := None;
    }
  }

  /** An argument value at a call of `gitExec`, as far as `gitExec` uses it. */
  datatype JsArg = Undefined | Null | Strings(items: seq<string>) | Function

  /** The parameters `(commands, encoding, callback)` bound to a call's arguments
      by position; missing arguments are `undefined`. */
  datatype ExecParams = ExecParams(commands: JsArg, encoding: JsArg, callback: JsArg)

  function BindExec(actuals: seq<JsArg>): (p: ExecParams)
    ensures p.commands == (if |actuals| > 0 then actuals[0] else Undefined)
    ensures p.encoding == (if |actuals| > 1 then actuals[1] else Undefined)
    ensures p.callback == (if |actuals| > 2 then actuals[2] else Undefined)
  {
    ExecParams(if |actuals| > 0 then actuals[0] else Undefined,
               if |actuals| > 1 then actuals[1] else Undefined,
               if |actuals| > 2 then actuals[2] else Undefined)
  }

  /** When the child closes, `gitExec` calls `callback` on its failure path, and on
      its success path after joining stdout with `encoding`; the continuation runs
      only if `callback` is that function (and, on success, `encoding` is not a
      function, which `toString` refuses). */
  predicate ContinuationRuns(p: ExecParams, gcFailed: bool) {
    p.callback.Function? && (gcFailed || !p.encoding.Function?)
  }

  /** The call `gitExec(["gc"], function (err) { getHEAD(); })` as it is written. */
  const GcCallAsWritten: seq<JsArg> := [Strings(["gc"]), Function]

  /** The call evidently intended: no encoding, and the continuation as callback. */
  const GcCall: seq<JsArg> := [Strings(["gc"]), Null, Function]

  /** Whether the refs are read after the existence check of packed-refs: at once
      when it exists, otherwise after `gc` if the continuation runs. */
  predicate ReadsRefs(packedRefsExists: bool, gcCall: seq<JsArg>, gcFailed: bool) {
    packedRefsExists || ContinuationRuns(BindExec(gcCall), gcFailed)
  }

  /** As written, a repository without packed-refs never has its refs read,
      whether `gc` succeeds or fails. */
  lemma GcAsWrittenNeverReadsRefs(gcFailed: bool)
    ensures !ReadsRefs(false, GcCallAsWritten, gcFailed)
  {
  }

  /** With the intended call the refs are always read, once, whatever `gc` did. */
  lemma GcCallReadsRefs(packedRefsExists: bool, gcFailed: bool)
    ensures ReadsRefs(packedRefsExists, GcCall, gcFailed)
  {
  }

  /** The resolution a started run of lib/git-fs.js reaches: with the intended
      `gc` call the refs are always read and `HeadRef.Resolve` decides (`packed`
      is then the read made after `gc` when the file was missing). */
  function ResolveRun(packedRefsExists: bool, gcFailed: bool,
                      packed: Result<string, IoError>, head: Result<string, IoError>,
                      loose: Result<string, IoError>, packedFirst: bool): (r: HeadRef.Resolution)
    ensures r == HeadRef.Resolve(packed, head, loose, packedFirst)
  {
    GcCallReadsRefs(packedRefsExists, gcFailed);
    if ReadsRefs(packedRefsExists, GcCall, gcFailed) then HeadRef.Resolve(packed, head, loose, packedFirst)
    else HeadRef.Stalled
  }

  /** The same run with the call as written: without packed-refs it stalls. */
  function ResolveRunAsWritten(packedRefsExists: bool, gcFailed: bool,
                               packed: Result<string, IoError>, head: Result<string, IoError>,
                               loose: Result<string, IoError>, packedFirst: bool): (r: HeadRef.Resolution)
    ensures !packedRefsExists ==> r == HeadRef.Stalled
    ensures packedRefsExists ==> r == HeadRef.Resolve(packed, head, loose, packedFirst)
  {
    if ReadsRefs(packedRefsExists, GcCallAsWritten, gcFailed) then HeadRef.Resolve(packed, head, loose, packedFirst)
    else HeadRef.Stalled
  }
}
