/** The child that caches against a child that never does: they hold the same sessions in every
    run, and a reply differs exactly when an answer is not the current environment's own
    (crates/lean-rs-worker-child/src/child.rs:1097-1116, 1179-1204, 1856-1952). */
module CacheTransparency {
  import opened Prelude
  import opened SnapshotCacheKey
  import opened WorkerChildModel
  import opened QueryScope
  import opened SnapshotPinning
  import opened SnapshotAgreement

  // ----- the child without a cache -----

  /** The same requests for a child whose Lean side supports no caching. */
  function WithoutCache(requests: seq<Request>): (r: seq<Request>)
    ensures |r| == |requests|
  {
    seq(|requests|, i requires 0 <= i < |requests| => Uncached(requests[i]))
  }

  function Uncached(request: Request): Request {
    if request.ProcessModuleQueryBatch? && request.inputs.lookup.Supported?
    then request.(inputs := request.inputs.(lookup := Unsupported))
    else request
  }

  lemma SweepIgnoresCache(s: ChildState, t: ChildState, readOk: bool, clearOk: bool)
    requires SamePool(s, t)
    ensures SamePool(Sweep(s, readOk, clearOk), Sweep(t, readOk, clearOk))
  {
    assert Held(s) == Held(t);
  }

  lemma {:induction false} EvictIgnoresCache(s: ChildState, t: ChildState, capacity: nat, clearOk: bool)
    requires capacity >= 1 && SamePool(s, t)
    ensures SamePool(EvictToFit(s, capacity, clearOk), EvictToFit(t, capacity, clearOk))
    decreases |s.parked|
  {
    if |s.parked| >= capacity {
      var c, d := ClearSnapshots(s, clearOk), ClearSnapshots(t, clearOk);
      EvictIgnoresCache(c.(parked := s.parked[1..], events := c.events + [SessionDropped(s.parked[0])]),
                        d.(parked := t.parked[1..], events := d.events + [SessionDropped(t.parked[0])]),
                        capacity, clearOk);
    }
  }

  lemma ImportIgnoresCache(s: ChildState, t: ChildState, key: HostSessionKey, inputs: OpenInputs)
    requires SamePool(s, t)
    ensures SamePool(AnchorAndImport(s, key, inputs).0, AnchorAndImport(t, key, inputs).0)
    ensures AnchorAndImport(s, key, inputs).1 == AnchorAndImport(t, key, inputs).1
  {
    var a, b := FindOrBuildAnchor(s, key, inputs).0, FindOrBuildAnchor(t, key, inputs).0;
    SweepIgnoresCache(Install(a, key, inputs.registryAfterImport), Install(b, key, inputs.registryAfterImport),
                      inputs.lastRead, inputs.lastClear);
  }

  lemma OpenIgnoresCache(s: ChildState, t: ChildState, capacity: nat, key: HostSessionKey, inputs: OpenInputs)
    requires capacity >= 1 && SamePool(s, t)
    ensures SamePool(Open(s, capacity, key, inputs).0, Open(t, capacity, key, inputs).0)
    ensures Open(s, capacity, key, inputs).1 == Open(t, capacity, key, inputs).1
  {
    SweepIgnoresCache(s, t, inputs.firstRead, inputs.firstClear);
    var s1, t1 := Sweep(s, inputs.firstRead, inputs.firstClear), Sweep(t, inputs.firstRead, inputs.firstClear);
    EvictIgnoresCache(Park(s1), Park(t1), capacity, inputs.evictClear);
    ImportIgnoresCache(EvictToFit(Park(s1), capacity, inputs.evictClear),
                       EvictToFit(Park(t1), capacity, inputs.evictClear), key, inputs);
  }

  lemma QueryIgnoresCache(s: ChildState, t: ChildState, cacheKey: Text, session: Session, query: ModuleQuery,
                          inputs: QueryInputs)
    requires SamePool(s, t)
    ensures var uncached := inputs.(lookup := if inputs.lookup.Supported? then Unsupported else inputs.lookup);
            var (s', reply) := Query(s, cacheKey, session, query, inputs);
            var (t', reply') := Query(t, cacheKey, session, query, uncached);
            && SamePool(s', t')
            && (reply == reply' <==> (reply.Answer? ==> reply.snapshot == Snapshot(session.env, query)))
  {
  }

  /** A request answers alike with and without the cache, unless it is a query answered from
      another environment or another query. */
  lemma ServeIgnoresCache(s: ChildState, t: ChildState, capacity: nat, toolchain: Toolchain, request: Request)
    requires capacity >= 1 && SamePool(s, t)
    ensures var (s', reply) := Serve(s, capacity, toolchain, request);
            var (t', uncached) := Serve(t, capacity, toolchain, Uncached(request));
            && SamePool(s', t')
            && (reply == uncached <==>
                  (request.ProcessModuleQueryBatch? && reply.Answer? ==>
                     s.hostSession.Some? && reply.snapshot == Snapshot(s.hostSession.value.env, request.query)))
  {
    match request
    case OpenHostSession(key, inputs) => OpenIgnoresCache(s, t, capacity, key, inputs);
    case ProcessModuleQueryBatch(query, inputs) =>
      if s.hostSession.Some? {
        var session := s.hostSession.value;
        QueryIgnoresCache(Register(s, inputs.registered), Register(t, inputs.registered),
                          QueryKey(toolchain, session.key, query), session, query, inputs);
      }
    case _ =>
  }

  lemma {:induction false} RunIgnoresCache(registry: nat, capacity: nat, toolchain: Toolchain, requests: seq<Request>)
    requires capacity >= 1
    ensures SamePool(Run(registry, capacity, toolchain, requests),
                     Run(registry, capacity, toolchain, WithoutCache(requests)))
  {
    if requests != [] {
      var n := |requests| - 1;
      RunIgnoresCache(registry, capacity, toolchain, requests[..n]);
      assert WithoutCache(requests)[..n] == WithoutCache(requests[..n]);
      ServeIgnoresCache(Run(registry, capacity, toolchain, requests[..n]),
                        Run(registry, capacity, toolchain, WithoutCache(requests[..n])), capacity, toolchain, requests[n]);
    }
  }

  /** In every run whatsoever, the reply to a request equals that of a child without a cache if
      and only if it is not an answer from elsewhere. */
  lemma ReplyIsTransparentExactly(registry: nat, capacity: nat, toolchain: Toolchain, requests: seq<Request>, i: nat)
    requires capacity >= 1 && i < |requests|
    ensures ReplyAt(registry, capacity, toolchain, requests, i)
            == ReplyAt(registry, capacity, toolchain, WithoutCache(requests), i)
            <==> (requests[i].ProcessModuleQueryBatch? ==> AnsweredOwn(registry, capacity, toolchain, requests, i))
  {
    RunIgnoresCache(registry, capacity, toolchain, requests[..i]);
    assert WithoutCache(requests)[..i] == WithoutCache(requests[..i]);
    ServeIgnoresCache(Run(registry, capacity, toolchain, requests[..i]),
                      Run(registry, capacity, toolchain, WithoutCache(requests[..i])), capacity, toolchain, requests[i]);
  }

  /** Reply by reply, a run that imports no key with leftovers equals the run of a child
      without a cache. */
  lemma CacheIsTransparent(registry: nat, capacity: nat, scope: Scope, requests: seq<Request>, i: nat)
    requires capacity >= 1 && i < |requests|
    requires Separated(scope, capacity) && RunOver(scope, requests) && CleanRun(registry, capacity, scope, requests)
    ensures ReplyAt(registry, capacity, scope.toolchain, requests, i)
         == ReplyAt(registry, capacity, scope.toolchain, WithoutCache(requests), i)
  {
    if requests[i].ProcessModuleQueryBatch? {
      AnswersComeFromTheCurrentSession(registry, capacity, scope, requests, i);
    }
    ReplyIsTransparentExactly(registry, capacity, scope.toolchain, requests, i);
  }

  /** In particular when every clear that precedes a drop succeeds. */
  lemma CacheWithClearsIsTransparent(registry: nat, capacity: nat, scope: Scope, requests: seq<Request>, i: nat)
    requires capacity >= 1 && Separated(scope, capacity) && OrderlyRun(scope, requests) && i < |requests|
    ensures ReplyAt(registry, capacity, scope.toolchain, requests, i)
         == ReplyAt(registry, capacity, scope.toolchain, WithoutCache(requests), i)
  {
    RunsWithClearsAreClean(registry, capacity, scope, requests);
    CacheIsTransparent(registry, capacity, scope, requests, i);
  }

  // ----- texts without NULs -----

  /** With texts that hold no NUL: held sessions answer from their own entries throughout a run
      if and only if no open imports a key that still has entries. */
  lemma NulFreeRunAnswersExactly(registry: nat, capacity: nat, toolchain: Toolchain, requests: seq<Request>)
    requires capacity >= 1 && NulFreeToolchain(toolchain) && RunOver(NulFreeScope(toolchain), requests)
    ensures CleanRun(registry, capacity, NulFreeScope(toolchain), requests) <==>
            forall i :: 0 <= i <= |requests| ==>
              AnswersAreOwn(Run(registry, capacity, toolchain, requests[..i]), NulFreeScope(toolchain))
  {
    NulFreeScopeIsSeparated(toolchain, capacity);
    RunAnswersExactly(registry, capacity, NulFreeScope(toolchain), requests);
  }

  /** And the cache changes no reply, for any number of sessions, when the clears succeed. */
  lemma NulFreeCacheIsTransparent(registry: nat, capacity: nat, toolchain: Toolchain, requests: seq<Request>, i: nat)
    requires capacity >= 1 && i < |requests|
    requires NulFreeToolchain(toolchain) && RunOver(NulFreeScope(toolchain), requests)
    requires CleanRun(registry, capacity, NulFreeScope(toolchain), requests)
             || OrderlyRun(NulFreeScope(toolchain), requests)
    ensures ReplyAt(registry, capacity, toolchain, requests, i)
         == ReplyAt(registry, capacity, toolchain, WithoutCache(requests), i)
  {
    NulFreeScopeIsSeparated(toolchain, capacity);
    if CleanRun(registry, capacity, NulFreeScope(toolchain), requests) {
      CacheIsTransparent(registry, capacity, NulFreeScope(toolchain), requests, i);
    } else {
      CacheWithClearsIsTransparent(registry, capacity, NulFreeScope(toolchain), requests, i);
    }
  }

  // ----- one run's own sessions and queries -----

  /** The sessions a run opens and the queries it makes. */
  ghost function ScopeOf(toolchain: Toolchain, requests: seq<Request>): Scope {
    Scope(toolchain,
          iset i | 0 <= i < |requests| && requests[i].OpenHostSession? :: requests[i].key,
          iset i | 0 <= i < |requests| && requests[i].ProcessModuleQueryBatch? :: requests[i].query)
  }

  /** A run with working clears in which no two of its own queries read alike is answered as
      without a cache, whatever bytes its texts hold. */
  lemma RunWithoutTwoAlikeIsTransparent(registry: nat, capacity: nat, toolchain: Toolchain, requests: seq<Request>, i: nat)
    requires capacity >= 1 && i < |requests| && NoTwoAlike(ScopeOf(toolchain, requests), capacity)
    requires forall j :: 0 <= j < |requests| ==> ClearsWork(requests[j])
    ensures ReplyAt(registry, capacity, toolchain, requests, i)
         == ReplyAt(registry, capacity, toolchain, WithoutCache(requests), i)
  {
    NoTwoAlikeIsSeparated(ScopeOf(toolchain, requests), capacity);
    CacheWithClearsIsTransparent(registry, capacity, ScopeOf(toolchain, requests), requests, i);
  }
}
