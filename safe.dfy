/** The `safe` decorator of lib/git-fs.js: a per-function cache of successful
    results and a per-key queue of callers waiting for the one run of the
    wrapped function in flight. Delivery is immediate, and the expiry timer is
    the explicit `ExpireStep` event. */
module Safe {
  import opened Wrappers
  import opened Text
  import opened GitTypes

  /** `CACHE_LIFE`, in milliseconds: 36300000 for a commit version, 100 for "fs". */
  const StableLife: nat := 36300000
  const VolatileLife: nat := 100

  /** The only check of a version: its JavaScript length is 40 code units, or it is "fs". */
  predicate ValidVersion(version: string) {
    Utf16Length(version) == 40 || version == "fs"
  }

  /** The delay of the expiry timer set after a cached result. */
  function Lifetime(version: string): (ms: nat) {
    if version == "fs" then VolatileLife else StableLife
  }

  /** `args.join(":")`: every argument but the callback, version first. */
  function KeyOf(args: seq<string>): string {
    JoinWith(args, ":")
  }

  /** The `cache` and `queue` objects of one decorated function; a key set to
      `false` is a key not in the map. */
  datatype CacheState = CacheState(cache: map<string, Value>, queue: map<string, seq<Waiter>>)

  const Empty: CacheState := CacheState(map[], map[])

  /** A key being produced has no cached value and at least one waiter; only
      truthy values are cached. */
  ghost predicate Inv(s: CacheState) {
    && (forall k :: k in s.queue ==> k !in s.cache && |s.queue[k]| > 0)
    && (forall k :: k in s.cache ==> Truthy(s.cache[k]))
  }

  /** One run of the wrapped function: the arguments it is applied to and the key
      and version its completion callback closes over. */
  datatype Run = Run(key: string, version: string, args: seq<string>)

  /** What a call of the decorated function does. */
  datatype Response =
    | Rejected(error: GitError)  // the version check failed
    | Served(value: Value)       // answered from the cache
    | Queued                     // added to the queue of the run in flight
    | Started(run: Run)          // a new queue, and `fn` applied once

  /** `Outcome`s whose value `if (value)` accepts. */
  predicate Cacheable(o: Outcome) {
    o.value.Some? && Truthy(o.value.value)
  }

  /** A call with arguments `args` (the callback removed) by waiter `w`. */
  function RequestStep(s: CacheState, args: seq<string>, w: Waiter): (res: (CacheState, Response))
    requires |args| > 0 && Inv(s)
    ensures Inv(res.0)
    ensures !ValidVersion(args[0]) ==> res == (s, Rejected(GitError(InvalidVersion, "Invalid version " + args[0])))
    ensures ValidVersion(args[0]) && KeyOf(args) in s.cache ==> res == (s, Served(s.cache[KeyOf(args)]))
    ensures res.1.Started? <==> ValidVersion(args[0]) && KeyOf(args) !in s.cache && KeyOf(args) !in s.queue
    ensures res.1.Started? ==> res.1.run == Run(KeyOf(args), args[0], args)
    ensures res.1.Queued? <==> ValidVersion(args[0]) && KeyOf(args) !in s.cache && KeyOf(args) in s.queue
    ensures res.1.Queued? ==> res.0 == s.(queue := s.queue[KeyOf(args) := s.queue[KeyOf(args)] + [w]])
    ensures res.1.Started? ==> res.0 == s.(queue := s.queue[KeyOf(args) := [w]])
  {
    var version := args[0];
    var key := KeyOf(args);
    if !ValidVersion(version) then (s, Rejected(GitError(InvalidVersion, "Invalid version " + version)))
    else if key in s.cache then (s, Served(s.cache[key]))
    else if key in s.queue then (s.(queue := s.queue[key := s.queue[key] + [w]]), Queued)
    else (s.(queue := s.queue[key := [w]]), Started(Run(key, version, args)))
  }

  /** The completion callback of a run: a truthy value is cached, with a timer of
      the version's lifetime, before the flush; every waiter queued for the key is
      called once, in order, with the same outcome; the queue is dropped. */
  function CompleteStep(s: CacheState, run: Run, o: Outcome): (res: (CacheState, seq<Delivery>, Option<nat>))
    requires Inv(s) && run.key in s.queue
    ensures Inv(res.0)
    ensures res.1 == Broadcast(s.queue[run.key], o)
    ensures res.0.queue == s.queue - {run.key}
    ensures Cacheable(o) ==> res.0.cache == s.cache[run.key := o.value.value] && res.2 == Some(Lifetime(run.version))
    ensures !Cacheable(o) ==> res.0.cache == s.cache && res.2 == None
  {
    var cache' := if Cacheable(o) then s.cache[run.key := o.value.value] else s.cache;
    (CacheState(cache', s.queue - {run.key}), Broadcast(s.queue[run.key], o),
     if Cacheable(o) then Some(Lifetime(run.version)) else None)
  }

  /** The expiry timer of a key: `cache[key] = false`. */
  function ExpireStep(s: CacheState, key: string): (s': CacheState)
    requires Inv(s)
    ensures Inv(s') && key !in s'.cache && s'.queue == s.queue
    ensures forall k :: k in s.cache && k != key ==> k in s'.cache && s'.cache[k] == s.cache[k]
  {
    s.(cache := s.cache - {key})
  }

  /** A call: the arguments, and the caller's callback. */
  datatype Call = Call(args: seq<string>, waiter: Waiter)

  predicate WellFormed(calls: seq<Call>) {
    forall i :: 0 <= i < |calls| ==> |calls[i].args| > 0
  }

  /** Calls made one after another, with no completion in between. */
  function RequestAll(s: CacheState, calls: seq<Call>): (res: (CacheState, seq<Response>))
    requires Inv(s) && WellFormed(calls)
    ensures Inv(res.0) && |res.1| == |calls|
    ensures res.0.cache == s.cache
    ensures forall k :: k in s.queue ==> k in res.0.queue
    decreases |calls|
  {
    if calls == [] then (s, [])
    else
      var first := RequestStep(s, calls[0].args, calls[0].waiter);
      var rest := RequestAll(first.0, calls[1..]);
      (rest.0, [first.1] + rest.1)
  }

  /** The runs a response list starts for `key`. */
  function StartsFor(rs: seq<Response>, key: string): nat
    decreases |rs|
  {
    if rs == [] then 0
    else (if rs[0].Started? && rs[0].run.key == key then 1 else 0) + StartsFor(rs[1..], key)
  }

  /** Whatever the calls, each key has at most one run of `fn` started, and none
      when it is already cached or in flight. */
  lemma {:induction false} AtMostOneRunPerKey(s: CacheState, calls: seq<Call>, key: string)
    requires Inv(s) && WellFormed(calls)
    ensures StartsFor(RequestAll(s, calls).1, key) <= 1
    ensures key in s.cache || key in s.queue ==> StartsFor(RequestAll(s, calls).1, key) == 0
    decreases |calls|
  {
    if calls != [] {
      var (s1, r1) := RequestStep(s, calls[0].args, calls[0].waiter);
      var rs := RequestAll(s1, calls[1..]).1;
      assert RequestAll(s, calls).1 == [r1] + rs;
      assert ([r1] + rs)[1..] == rs;
      AtMostOneRunPerKey(s1, calls[1..], key);
      if r1.Started? && r1.run.key == key {
        assert key in s1.queue;
      }
    }
  }

  /** The same arguments called by each of `ws`, in order. */
  function CallsOf(args: seq<string>, ws: seq<Waiter>): (calls: seq<Call>)
    requires |args| > 0
    ensures WellFormed(calls) && |calls| == |ws|
    ensures forall i :: 0 <= i < |ws| ==> calls[i] == Call(args, ws[i])
    decreases |ws|
  {
    if ws == [] then [] else [Call(args, ws[0])] + CallsOf(args, ws[1..])
  }

  /** Callers with the same arguments while a run for the key is in flight all
      queue behind the waiters already there, in the order they called. */
  lemma CallersQueueBehind(s: CacheState, args: seq<string>, ws: seq<Waiter>)
    requires Inv(s) && |args| > 0 && ValidVersion(args[0]) && KeyOf(args) in s.queue
    ensures var (s', rs) := RequestAll(s, CallsOf(args, ws));
            && (forall i :: 0 <= i < |ws| ==> rs[i] == Queued)
            && s' == s.(queue := s.queue[KeyOf(args) := s.queue[KeyOf(args)] + ws])
  {
    QueuedResponses(s, args, ws);
    QueuedState(s, args, ws);
  }

  lemma {:induction false} QueuedResponses(s: CacheState, args: seq<string>, ws: seq<Waiter>)
    requires Inv(s) && |args| > 0 && ValidVersion(args[0]) && KeyOf(args) in s.queue
    ensures forall i :: 0 <= i < |ws| ==> RequestAll(s, CallsOf(args, ws)).1[i] == Queued
    decreases |ws|
  {
    if ws != [] {
      var s1 := RequestSameStep(s, args, ws);
      QueuedResponses(s1, args, ws[1..]);
    }
  }

  lemma {:induction false} QueuedState(s: CacheState, args: seq<string>, ws: seq<Waiter>)
    requires Inv(s) && |args| > 0 && ValidVersion(args[0]) && KeyOf(args) in s.queue
    ensures RequestAll(s, CallsOf(args, ws)).0.queue == s.queue[KeyOf(args) := s.queue[KeyOf(args)] + ws]
    decreases |ws|
  {
    var key := KeyOf(args);
    if ws == [] {
      assert s.queue[key] + [] == s.queue[key];
      assert s.queue[key := s.queue[key]] == s.queue;
    } else {
      var s1 := RequestSameStep(s, args, ws);
      QueuedState(s1, args, ws[1..]);
      QueueGrows(s.queue, s1.queue, key, ws);
    }
  }

  /** The first of the identical calls while the key is in flight queues its
      waiter; the others then run from the state it leaves. */
  lemma RequestSameStep(s: CacheState, args: seq<string>, ws: seq<Waiter>) returns (s1: CacheState)
    requires Inv(s) && |args| > 0 && ValidVersion(args[0]) && KeyOf(args) in s.queue && ws != []
    ensures Inv(s1) && KeyOf(args) in s1.queue
    ensures s1.queue == s.queue[KeyOf(args) := s.queue[KeyOf(args)] + [ws[0]]]
    ensures RequestAll(s, CallsOf(args, ws)) == (RequestAll(s1, CallsOf(args, ws[1..])).0, [Queued] + RequestAll(s1, CallsOf(args, ws[1..])).1)
  {
    var calls := CallsOf(args, ws);
    assert calls[0] == Call(args, ws[0]) && calls[1..] == CallsOf(args, ws[1..]);
    s1 := RequestStep(s, args, ws[0]).0;
  }

  /** Appending the first waiter, then the others, appends them all. */
  lemma QueueGrows(q: map<string, seq<Waiter>>, q1: map<string, seq<Waiter>>, key: string, ws: seq<Waiter>)
    requires key in q && ws != [] && q1 == q[key := q[key] + [ws[0]]]
    ensures q1[key := q1[key] + ws[1..]] == q[key := q[key] + ws]
  {
    assert q1[key] + ws[1..] == q[key] + ws;
    UpdateTwice(q, key, q[key] + [ws[0]], q[key] + ws);
  }

  /** A second update of a key overrides the first. */
  lemma UpdateTwice<V>(m: map<string, V>, key: string, a: V, b: V)
    ensures m[key := a][key := b] == m[key := b]
  {
  }

  /** N callers with the same arguments while the key is neither cached nor in
      flight: the first starts the one run, the others queue behind it. */
  lemma CallersQueueInOrder(s: CacheState, args: seq<string>, ws: seq<Waiter>)
    requires Inv(s) && |args| > 0 && ValidVersion(args[0])
    requires KeyOf(args) !in s.cache && KeyOf(args) !in s.queue && |ws| > 0
    ensures var (s', rs) := RequestAll(s, CallsOf(args, ws));
            && rs[0] == Started(Run(KeyOf(args), args[0], args))
            && (forall i :: 1 <= i < |ws| ==> rs[i] == Queued)
            && s' == s.(queue := s.queue[KeyOf(args) := ws])
  {
    var key := KeyOf(args);
    var s1 := StartStep(s, args, ws);
    QueuedResponses(s1, args, ws[1..]);
    QueuedState(s1, args, ws[1..]);
    assert [ws[0]] + ws[1..] == ws;
    UpdateTwice(s.queue, key, [ws[0]], ws);
  }

  /** The first of the identical calls on a fresh key starts the run; the others
      then run from the state it leaves. */
  lemma StartStep(s: CacheState, args: seq<string>, ws: seq<Waiter>) returns (s1: CacheState)
    requires Inv(s) && |args| > 0 && ValidVersion(args[0])
    requires KeyOf(args) !in s.cache && KeyOf(args) !in s.queue && |ws| > 0
    ensures Inv(s1) && KeyOf(args) in s1.queue && s1.cache == s.cache
    ensures s1.queue == s.queue[KeyOf(args) := [ws[0]]]
    ensures RequestAll(s, CallsOf(args, ws))
         == (RequestAll(s1, CallsOf(args, ws[1..])).0, [Started(Run(KeyOf(args), args[0], args))] + RequestAll(s1, CallsOf(args, ws[1..])).1)
  {
    var calls := CallsOf(args, ws);
    assert calls[0] == Call(args, ws[0]) && calls[1..] == CallsOf(args, ws[1..]);
    s1 := RequestStep(s, args, ws[0]).0;
  }

  /** The coalescing promise: N concurrent identical calls on an uncached key run
      `fn` once, and its one completion calls every caller exactly once, in the
      order they called, with the same outcome. */
  lemma Coalescing(s: CacheState, args: seq<string>, ws: seq<Waiter>, o: Outcome)
    requires Inv(s) && |args| > 0 && ValidVersion(args[0])
    requires KeyOf(args) !in s.cache && KeyOf(args) !in s.queue && |ws| > 0
    ensures var (s', rs) := RequestAll(s, CallsOf(args, ws));
            && StartsFor(rs, KeyOf(args)) == 1
            && rs[0] == Started(Run(KeyOf(args), args[0], args))
            && KeyOf(args) in s'.queue
            && CompleteStep(s', rs[0].run, o).1 == Broadcast(ws, o)
  {
    var calls := CallsOf(args, ws);
    CallersQueueInOrder(s, args, ws);
    AtMostOneRunPerKey(s, calls, KeyOf(args));
    var rs := RequestAll(s, calls).1;
    assert StartsFor(rs, KeyOf(args)) >= 1;
    assert [] + ws == ws;
  }

  /** A failed or falsy outcome is not cached: the next call runs `fn` again. */
  lemma FailureIsNotCached(s: CacheState, run: Run, o: Outcome, args: seq<string>, w: Waiter)
    requires Inv(s) && run.key in s.queue && !Cacheable(o)
    requires |args| > 0 && ValidVersion(args[0]) && KeyOf(args) == run.key
    ensures RequestStep(CompleteStep(s, run, o).0, args, w).1.Started?
  {
  }

  /** A truthy value is served to later calls without running `fn`, until its
      timer fires; then the next call runs `fn` again. */
  lemma SuccessIsServedUntilExpiry(s: CacheState, run: Run, o: Outcome, args: seq<string>, w: Waiter)
    requires Inv(s) && run.key in s.queue && Cacheable(o)
    requires |args| > 0 && ValidVersion(args[0]) && KeyOf(args) == run.key
    ensures var s' := CompleteStep(s, run, o).0;
            && RequestStep(s', args, w) == (s', Served(o.value.value))
            && RequestStep(ExpireStep(s', run.key), args, w).1.Started?
  {
  }

  /** The "fs" version gets the short lifetime, every other valid version the long one. */
  lemma LifetimeByVersion(version: string)
    requires ValidVersion(version)
    ensures Lifetime(version) == (if Utf16Length(version) == 40 then 36300000 else 100)
  {
  }

  /** The check counts code units: twenty characters above U+FFFF pass it, forty
      characters of which one is above U+FFFF do not. */
  lemma LengthCountsCodeUnits()
    ensures ValidVersion(seq(20, _ => '\U{1F600}'))
    ensures !ValidVersion(seq(39, _ => 'a') + ['\U{1F600}'])
  {
    AstralLength(seq(20, _ => '\U{1F600}'));
    var a: string := seq(39, _ => 'a');
    BmpLength(a);
    AstralLength(['\U{1F600}']);
    Utf16Append(a, ['\U{1F600}']);
  }

  /** The decorated function's state, updated in place as the source does. */
  class SafeCache {
    var cache: map<string, Value>
    var queue: map<string, seq<Waiter>>

    function State(): CacheState
      reads this
    {
      CacheState(cache, queue)
    }

    ghost predicate Valid()
      reads this
    {
      Inv(State())
    }

    /** `safe(fn)`: fresh, empty `cache` and `queue` objects. */
    constructor ()
      ensures Valid() && State() == Empty
    {
      cache, queue := map[], map[];
    }

    /** The function `safe` returns, called with `args` and the callback `w`. */
    method Request(args: seq<string>, w: Waiter) returns (r: Response)
      requires Valid() && |args| > 0
      modifies this
      ensures Valid()
      ensures (State(), r) == RequestStep(old(State()), args, w)
    {
      var version := args[0];
      var key := KeyOf(args);
      if !(Utf16Length(version) == 40 || version == "fs") {
        r := Rejected(GitError(InvalidVersion, "Invalid version " + version));
        return;
      }
      if key in cache {
        r := Served(cache[key]);
        return;
      }
      if key in queue {
        queue := queue[key := queue[key] + [w]];
        r := Queued;
        return;
      }
      queue := queue[key := [w]];
      r := Started(Run(key, version, args));
    }

    /** The completion callback passed to `fn`: cache, then flush `localQueue`. */
    method Complete(run: Run, o: Outcome) returns (deliveries: seq<Delivery>, timer: Option<nat>)
      requires Valid() && run.key in queue
      modifies this
      ensures Valid()
      ensures (State(), deliveries, timer) == CompleteStep(old(State()), run, o)
    {
      var localQueue := queue[run.key];
      if o.value.Some? && Truthy(o.value.value) {
        cache := cache[run.key := o.value.value];
        timer := Some(if run.version == "fs" then VolatileLife else StableLife);
      } else {
        timer := None;
      }
      deliveries := [];
      for i := 0 to |localQueue|
        invariant deliveries == Broadcast(localQueue[..i], o)
      {
        deliveries := deliveries + [Delivery(localQueue[i], o)];
      }
      assert localQueue[..|localQueue|] == localQueue;
      queue := queue - {run.key};
    }

    /** The timer set by `Complete` firing. */
    method Expire(key: string)
      requires Valid()
      modifies this
      ensures Valid() && State() == ExpireStep(old(State()), key)
    {
      cache := cache - {key};
    }
  }
}
