/** Runs in which the snapshot cache answers from another environment: after clears that
    failed, and with a NUL in a source
    (crates/lean-rs-worker-child/src/child.rs:1097-1116, 2605-2668). */
module SnapshotHazards {
  import opened Prelude
  import opened SnapshotCacheKey
  import opened CacheKeyCollisions
  import opened WorkerChildModel
  import opened PoolReplies
  import opened PoolIsLru
  import opened QueryScope
  import opened SnapshotAgreement

  lemma SwitchWithoutClear(s: ChildState, x: Session, key: HostSessionKey, inputs: OpenInputs)
    requires s.hostSession == Some(x) && s.parked == [] && x.epoch == s.registry && x.key != key
    requires Undisturbed(inputs, s.registry) && !inputs.evictClear
    ensures var s' := Open(s, 1, key, inputs).0;
            && s'.hostSession == Some(Session(key, s.registry, s.imports)) && s'.parked == []
            && s'.registry == s.registry && s'.imports == s.imports + 1 && s'.snapshots == s.snapshots
  {
    assert Held(s) == [x];
    SweepOfFresh(s, inputs.firstClear);
    CapacityOneIsPrePool(s, key, inputs);
    var c := ClearSnapshots(s, false);
    var dropped := c.(hostSession := None, events := c.events + [SessionDropped(x)]);
    var anchored := FindOrBuildAnchor(dropped, key, inputs).0;
    var installed := Install(anchored, key, s.registry);
    assert Held(installed) == [Session(key, s.registry, s.imports)];
    SweepOfFresh(installed, inputs.lastClear);
  }

  lemma AwayAndBackWithoutClear(s: ChildState, x: Session, b: HostSessionKey, away: OpenInputs, back: OpenInputs)
    requires s.hostSession == Some(x) && s.parked == [] && x.epoch == s.registry && x.key != b
    requires Undisturbed(away, s.registry) && !away.evictClear && Undisturbed(back, s.registry) && !back.evictClear
    ensures var s2 := Open(Open(s, 1, b, away).0, 1, x.key, back).0;
            s2.hostSession == Some(Session(x.key, s.registry, s.imports + 1)) && s2.snapshots == s.snapshots
  {
    SwitchWithoutClear(s, x, b, away);
    SwitchWithoutClear(Open(s, 1, b, away).0, Session(b, s.registry, s.imports), x.key, back);
  }

  /** The ignored result of `clear_module_snapshot_cache` is load-bearing: with one slot, a
      switch away and back whose two clears fail lets a query hit the snapshot of an
      environment that no longer exists. */
  lemma FailedClearsServeADroppedEnvironment(s: ChildState, toolchain: Toolchain, a: HostSessionKey, b: HostSessionKey,
                                             query: ModuleQuery, away: OpenInputs, back: OpenInputs, inputs: QueryInputs)
    requires s.hostSession.Some? && s.parked == [] && s.hostSession.value.key == a && a != b
    requires s.hostSession.value.epoch == s.registry && s.hostSession.value.env < s.imports
    requires Undisturbed(away, s.registry) && !away.evictClear && Undisturbed(back, s.registry) && !back.evictClear
    requires inputs.lookup.Supported? && inputs.guardKib == 0 && inputs.lostBefore == {} && inputs.lostAfter == {}
    requires QueryKey(toolchain, a, query) in s.snapshots
    requires s.snapshots[QueryKey(toolchain, a, query)] == Snapshot(s.hostSession.value.env, query)
    ensures var s2 := Open(Open(s, 1, b, away).0, 1, a, back).0;
            && s2.hostSession == Some(Session(a, s.registry, s.imports + 1))
            && Serve(s2, 1, toolchain, ProcessModuleQueryBatch(query, inputs)).1
                 == Answer(Snapshot(s.hostSession.value.env, query))
            && s2.hostSession.value.env != s.hostSession.value.env
  {
    AwayAndBackWithoutClear(s, s.hostSession.value, b, away, back);
    StoredAnswers(Open(Open(s, 1, b, away).0, 1, a, back).0, 1, toolchain, query, inputs);
  }

  /** A hit, when the guard stays out and nothing is lost. */
  lemma StoredAnswers(s: ChildState, capacity: nat, toolchain: Toolchain, query: ModuleQuery, inputs: QueryInputs)
    requires capacity >= 1 && s.hostSession.Some?
    requires inputs.lookup.Supported? && inputs.guardKib == 0 && inputs.lostBefore == {}
    requires QueryKey(toolchain, s.hostSession.value.key, query) in s.snapshots
    ensures Serve(s, capacity, toolchain, ProcessModuleQueryBatch(query, inputs)).1
         == Answer(s.snapshots[QueryKey(toolchain, s.hostSession.value.key, query)])
  {
    assert s.snapshots - {} == s.snapshots;
  }

  // ----- a concrete run -----

  /** An undisturbed open whose eviction clear fails. */
  function UnclearedOpen(registry: nat): OpenInputs {
    OpenInputs(true, true, false, true, registry, true, registry, true, true, "")
  }

  /** Open one key and query it, open another, and come back with the same query. */
  function AwayAndBack(registry: nat, a: HostSessionKey, b: HostSessionKey, query: ModuleQuery): seq<Request> {
    var inputs := UnclearedOpen(registry);
    [OpenHostSession(a, inputs), ProcessModuleQueryBatch(query, QUIET), OpenHostSession(b, inputs),
     OpenHostSession(a, inputs), ProcessModuleQueryBatch(query, QUIET)]
  }

  lemma RunOfPrefix(registry: nat, capacity: nat, toolchain: Toolchain, requests: seq<Request>, n: nat)
    requires capacity >= 1 && n < |requests|
    ensures Run(registry, capacity, toolchain, requests[..n + 1])
         == Serve(Run(registry, capacity, toolchain, requests[..n]), capacity, toolchain, requests[n]).0
  {
    assert requests[..n + 1][..n] == requests[..n];
  }

  lemma OpenOnEmpty(s: ChildState, capacity: nat, key: HostSessionKey, inputs: OpenInputs)
    requires capacity >= 1 && s.hostSession.None? && s.parked == [] && Undisturbed(inputs, s.registry)
    ensures var s' := Open(s, capacity, key, inputs).0;
            && s'.hostSession == Some(Session(key, s.registry, s.imports)) && s'.parked == []
            && s'.registry == s.registry && s'.imports == s.imports + 1 && s'.snapshots == s.snapshots
  {
    assert Held(s) == [];
    SweepOfFresh(s, inputs.firstClear);
    var anchored := FindOrBuildAnchor(s, key, inputs).0;
    var installed := Install(anchored, key, s.registry);
    assert Held(installed) == [Session(key, s.registry, s.imports)];
    SweepOfFresh(installed, inputs.lastClear);
  }

  /** A quiet query: a hit answers what is stored, a miss stores what is answered. */
  lemma StoresAndAnswers(s: ChildState, capacity: nat, toolchain: Toolchain, session: Session, query: ModuleQuery)
    requires capacity >= 1 && s.hostSession == Some(session)
    ensures var cacheKey, built := QueryKey(toolchain, session.key, query), Snapshot(session.env, query);
            var (s', reply) := Serve(s, capacity, toolchain, ProcessModuleQueryBatch(query, QUIET));
            && s' == s.(snapshots := s'.snapshots, events := s'.events)
            && if cacheKey in s.snapshots then s'.snapshots == s.snapshots && reply == Answer(s.snapshots[cacheKey])
               else s'.snapshots == s.snapshots[cacheKey := built] && reply == Answer(built)
  {
    assert Register(s, 0) == s;
    assert s.snapshots - {} == s.snapshots;
  }

  /** A fresh child after one open and one quiet query: the session and its one snapshot. */
  lemma AfterFirstQuery(registry: nat, capacity: nat, toolchain: Toolchain, key: HostSessionKey, query: ModuleQuery,
                        inputs: OpenInputs, requests: seq<Request>)
    requires capacity >= 1 && Undisturbed(inputs, registry) && |requests| >= 2
    requires requests[0] == OpenHostSession(key, inputs) && requests[1] == ProcessModuleQueryBatch(query, QUIET)
    ensures var s := Run(registry, capacity, toolchain, requests[..2]);
            && s.hostSession == Some(Session(key, registry, 0)) && s.parked == [] && s.registry == registry
            && s.imports == 1 && s.snapshots == map[QueryKey(toolchain, key, query) := Snapshot(0, query)]
  {
    RunOfOpen(registry, capacity, toolchain, requests, 0, key, inputs);
    assert requests[..0] == [];
    OpenOnEmpty(Initial(registry), capacity, key, inputs);
    RunOfPrefix(registry, capacity, toolchain, requests, 1);
    StoresAndAnswers(Run(registry, capacity, toolchain, requests[..1]), capacity, toolchain, Session(key, registry, 0),
                     query);
  }

  lemma RunOfOpen(registry: nat, capacity: nat, toolchain: Toolchain, requests: seq<Request>, n: nat,
                  key: HostSessionKey, inputs: OpenInputs)
    requires capacity >= 1 && n < |requests| && requests[n] == OpenHostSession(key, inputs)
    ensures Run(registry, capacity, toolchain, requests[..n + 1])
         == Open(Run(registry, capacity, toolchain, requests[..n]), capacity, key, inputs).0
  {
    RunOfPrefix(registry, capacity, toolchain, requests, n);
  }

  lemma AwayAndBackGoesWrong(registry: nat, toolchain: Toolchain, a: HostSessionKey, b: HostSessionKey,
                             query: ModuleQuery, inputs: OpenInputs, requests: seq<Request>)
    requires a != b && Undisturbed(inputs, registry) && !inputs.evictClear && |requests| == 5
    requires requests[0] == OpenHostSession(a, inputs) && requests[1] == ProcessModuleQueryBatch(query, QUIET)
    requires requests[2] == OpenHostSession(b, inputs) && requests[3] == OpenHostSession(a, inputs)
    requires requests[4] == ProcessModuleQueryBatch(query, QUIET)
    ensures Run(registry, 1, toolchain, requests[..4]).hostSession == Some(Session(a, registry, 2))
    ensures ReplyAt(registry, 1, toolchain, requests, 4) == Answer(Snapshot(0, query))
  {
    AfterFirstQuery(registry, 1, toolchain, a, query, inputs, requests);
    RunOfOpen(registry, 1, toolchain, requests, 2, b, inputs);
    RunOfOpen(registry, 1, toolchain, requests, 3, a, inputs);
    FailedClearsServeADroppedEnvironment(Run(registry, 1, toolchain, requests[..2]), toolchain, a, b, query, inputs,
                                         inputs, QUIET);
  }

  /** From a fresh child with one slot, for any two keys and any query: when the clears before
      the two drops fail, the last query of this run is answered from the first import,
      although the third is current. */
  lemma FailedClearsGoWrong(registry: nat, toolchain: Toolchain, a: HostSessionKey, b: HostSessionKey, query: ModuleQuery)
    requires a != b
    ensures var requests := AwayAndBack(registry, a, b, query);
            && Run(registry, 1, toolchain, requests[..4]).hostSession == Some(Session(a, registry, 2))
            && ReplyAt(registry, 1, toolchain, requests, 4) == Answer(Snapshot(0, query))
  {
    AwayAndBackGoesWrong(registry, toolchain, a, b, query, UnclearedOpen(registry), AwayAndBack(registry, a, b, query));
  }

  // ----- a NUL in a source -----

  /** An undisturbed open whose clears all succeed. */
  function PlainOpen(registry: nat): OpenInputs {
    OpenInputs(true, true, true, true, registry, true, registry, true, true, "")
  }

  /** Two sessions over one project, and a query of each. */
  function TwoSessions(registry: nat, a: HostSessionKey, p: ModuleQuery, b: HostSessionKey, q: ModuleQuery): seq<Request> {
    [OpenHostSession(a, PlainOpen(registry)), ProcessModuleQueryBatch(p, QUIET),
     OpenHostSession(b, PlainOpen(registry)), ProcessModuleQueryBatch(q, QUIET)]
  }

  lemma OpenBeside(s: ChildState, capacity: nat, x: Session, key: HostSessionKey, inputs: OpenInputs)
    requires capacity >= 2 && s.hostSession == Some(x) && s.parked == [] && x.epoch == s.registry && x.key != key
    requires Undisturbed(inputs, s.registry)
    ensures var s' := Open(s, capacity, key, inputs).0;
            && s'.hostSession == Some(Session(key, s.registry, s.imports)) && s'.parked == [x]
            && s'.snapshots == s.snapshots
  {
    assert Held(s) == [x];
    SweepOfFresh(s, inputs.firstClear);
    assert EvictToFit(Park(s), capacity, inputs.evictClear) == Park(s);
    var anchored := FindOrBuildAnchor(Park(s), key, inputs).0;
    var installed := Install(anchored, key, s.registry);
    assert Held(installed) == [x, Session(key, s.registry, s.imports)];
    SweepOfFresh(installed, inputs.lastClear);
  }

  /** The source `x` NUL `imports` NUL `y` in a session, and the source `x` in a session that
      also imports `y` and a module named `imports`, have one cache key. */
  lemma SourcesShareAKey(toolchain: Toolchain, key: HostSessionKey, options: ElabOptions, x: Text, y: Text)
    requires NulFreeToolchain(toolchain) && NulFreeKey(key) && NulFree(x) && NulFree(y)
    requires NulFreeQuery(ModuleQuery(x, options))
    ensures QueryKey(toolchain, key, ModuleQuery(x + [0] + IMPORTS_MARKER + [0] + y, options))
         == QueryKey(toolchain, key.(imports := [y, IMPORTS_MARKER] + key.imports), ModuleQuery(x, options))
  {
    NulInASourceCollides(QueryKeyInputs(toolchain, key, ModuleQuery(x, options)), x, y);
  }

  lemma SharedKeyGoesWrong(registry: nat, capacity: nat, toolchain: Toolchain, a: HostSessionKey, p: ModuleQuery,
                           b: HostSessionKey, q: ModuleQuery, inputs: OpenInputs, requests: seq<Request>)
    requires capacity >= 2 && a != b && QueryKey(toolchain, a, p) == QueryKey(toolchain, b, q)
    requires Undisturbed(inputs, registry) && |requests| == 4
    requires requests[0] == OpenHostSession(a, inputs) && requests[1] == ProcessModuleQueryBatch(p, QUIET)
    requires requests[2] == OpenHostSession(b, inputs) && requests[3] == ProcessModuleQueryBatch(q, QUIET)
    ensures Run(registry, capacity, toolchain, requests[..3]).hostSession == Some(Session(b, registry, 1))
    ensures ReplyAt(registry, capacity, toolchain, requests, 3) == Answer(Snapshot(0, p))
  {
    AfterFirstQuery(registry, capacity, toolchain, a, p, inputs, requests);
    RunOfOpen(registry, capacity, toolchain, requests, 2, b, inputs);
    OpenBeside(Run(registry, capacity, toolchain, requests[..2]), capacity, Session(a, registry, 0), b, inputs);
    StoresAndAnswers(Run(registry, capacity, toolchain, requests[..3]), capacity, toolchain, Session(b, registry, 1), q);
  }

  /** From a fresh child with room for two sessions, with every clear, build and import
      succeeding: the second query is answered from the first session, which is parked,
      although the two sessions import different modules. */
  lemma NulInASourceGoesWrong(registry: nat, capacity: nat, toolchain: Toolchain, key: HostSessionKey,
                              options: ElabOptions, x: Text, y: Text)
    requires capacity >= 2
    requires NulFreeToolchain(toolchain) && NulFreeKey(key) && NulFree(x) && NulFree(y)
    requires NulFreeQuery(ModuleQuery(x, options))
    ensures var other := key.(imports := [y, IMPORTS_MARKER] + key.imports);
            var p, q := ModuleQuery(x + [0] + IMPORTS_MARKER + [0] + y, options), ModuleQuery(x, options);
            var requests := TwoSessions(registry, key, p, other, q);
            && Run(registry, capacity, toolchain, requests[..3]).hostSession == Some(Session(other, registry, 1))
            && ReplyAt(registry, capacity, toolchain, requests, 3) == Answer(Snapshot(0, p))
  {
    var other := key.(imports := [y, IMPORTS_MARKER] + key.imports);
    var p, q := ModuleQuery(x + [0] + IMPORTS_MARKER + [0] + y, options), ModuleQuery(x, options);
    SourcesShareAKey(toolchain, key, options, x, y);
    assert |other.imports| != |key.imports|;
    SharedKeyGoesWrong(registry, capacity, toolchain, key, p, other, q, PlainOpen(registry),
                       TwoSessions(registry, key, p, other, q));
  }

  // ----- two queries of one session -----

  lemma SameSessionGoesWrong(registry: nat, capacity: nat, toolchain: Toolchain, a: HostSessionKey, p: ModuleQuery,
                             q: ModuleQuery, inputs: OpenInputs, requests: seq<Request>)
    requires capacity >= 1 && QueryKey(toolchain, a, p) == QueryKey(toolchain, a, q)
    requires Undisturbed(inputs, registry) && |requests| == 3
    requires requests[0] == OpenHostSession(a, inputs) && requests[1] == ProcessModuleQueryBatch(p, QUIET)
    requires requests[2] == ProcessModuleQueryBatch(q, QUIET)
    ensures Run(registry, capacity, toolchain, requests[..2]).hostSession == Some(Session(a, registry, 0))
    ensures ReplyAt(registry, capacity, toolchain, requests, 2) == Answer(Snapshot(0, p))
  {
    AfterFirstQuery(registry, capacity, toolchain, a, p, inputs, requests);
    StoresAndAnswers(Run(registry, capacity, toolchain, requests[..2]), capacity, toolchain, Session(a, registry, 0), q);
  }
}
