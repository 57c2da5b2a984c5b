/** The `serve_stdio` loop's mutable state and the functions that update it in place
    (crates/lean-rs-worker-child/src/child.rs:340-714, 1051-1204, 1856-1952), proved against
    the step functions of `WorkerChildModel`. */
module WorkerChildProcess {
  import opened Prelude
  import opened SnapshotCacheKey
  import opened WorkerChildModel
  import opened PoolStructure

  class WorkerChild {
    const capacity: nat
    const toolchain: Toolchain
    var hostSession: Option<Session>
    /** Most recently used at the back. */
    var parked: seq<Session>
    var anchors: seq<HostAnchor>
    /** Process-global, moved by Lean. */
    var registry: nat
    /** Process-global, filled and emptied by Lean. */
    var snapshots: map<Text, Snapshot>
    var imports: nat
    ghost var events: seq<Event>

    ghost function State(): ChildState
      reads this
    {
      ChildState(hostSession, parked, anchors, registry, snapshots, imports, events)
    }

    ghost predicate Valid()
      reads this
    {
      capacity >= 1 && PoolInvariant(State(), capacity)
    }

    constructor (configured: Option<nat>, toolchain: Toolchain, registry: nat)
      ensures Valid() && State() == Initial(registry)
      ensures capacity == SessionPoolCapacity(configured) && this.toolchain == toolchain
    {
      capacity := SessionPoolCapacity(configured);
      this.toolchain := toolchain;
      hostSession, parked, anchors, this.registry := None, [], [], registry;
      snapshots, imports, events := map[], 0, [];
    }

    method ClearModuleSnapshotCache(ok: bool)
      modifies this
      ensures State() == ClearSnapshots(old(State()), ok)
    {
      if ok { snapshots := map[]; }
      events := events + [SnapshotsCleared(ok)];
    }

    /** Drops every held session whose stamp is not the one just read. */
    method EvictStaleHostSessions(readOk: bool, clearOk: bool)
      modifies this
      ensures State() == Sweep(old(State()), readOk, clearOk)
    {
      if hostSession.None? && parked == [] { return; }
      var live := if readOk then Some(registry) else None;
      var currentIsStale := hostSession.Some? && IsStale(live, hostSession.value);
      ghost var stale := StaleOnly(live, parked);
      StaleOfBoth(live, parked, hostSession);
      if !currentIsStale && StaleOnly(live, parked) == [] { return; }
      ClearModuleSnapshotCache(clearOk);
      DropStale(live, stale);
    }

    /** `retain` on the parked sessions, and the current slot emptied if it is stale. */
    method DropStale(live: Option<nat>, ghost stale: seq<Session>)
      modifies this
      ensures var was := old(State());
              var currentIsStale := was.hostSession.Some? && IsStale(live, was.hostSession.value);
              State() == was.(hostSession := if currentIsStale then None else was.hostSession,
                              parked := FreshOnly(live, was.parked),
                              events := was.events + if currentIsStale then Drops(stale) + Drops([was.hostSession.value])
                                                     else Drops(stale))
    {
      parked := FreshOnly(live, parked);
      events := events + Drops(stale);
      if hostSession.Some? && IsStale(live, hostSession.value) {
        events := events + Drops([hostSession.value]);
        hostSession := None;
      }
    }

    /** The capacity loop. It never takes from an empty list because the capacity is at
        least 1. */
    method EvictLeastRecentlyUsed(clearOk: bool)
      requires capacity >= 1
      modifies this
      ensures State() == EvictToFit(old(State()), capacity, clearOk)
    {
      while |parked| >= capacity
        invariant EvictToFit(State(), capacity, clearOk) == EvictToFit(old(State()), capacity, clearOk)
        decreases |parked|
      {
        var evicted := parked[0];
        parked := parked[1..];
        ClearModuleSnapshotCache(clearOk);
        events := events + [SessionDropped(evicted)];
      }
    }

    /** `HostSessionState::open` and what follows it on success. */
    method ImportSession(key: HostSessionKey, inputs: OpenInputs) returns (response: Response)
      modifies this
      ensures (State(), response) == Import(old(State()), key, inputs)
    {
      registry := inputs.registryAfterImport;
      if !inputs.imported { return Error(inputs.errorCode); }
      var state := Session(key, registry, imports);
      imports := imports + 1;
      events := events + [SessionOpened(state)];
      hostSession := Some(state);
      EvictStaleHostSessions(inputs.lastRead, inputs.lastClear);
      response := HostSessionOpened(state.env);
    }

    method OpenOrReuseHostSession(key: HostSessionKey, inputs: OpenInputs) returns (response: Response)
      requires Valid()
      modifies this
      ensures Valid()
      ensures (State(), response) == Open(old(State()), capacity, key, inputs)
    {
      OpenKeepsPool(State(), capacity, key, inputs);
      EvictStaleHostSessions(inputs.firstRead, inputs.firstClear);
      response := OpenAfterSweep(key, inputs);
    }

    method OpenAfterSweep(key: HostSessionKey, inputs: OpenInputs) returns (response: Response)
      requires capacity >= 1
      modifies this
      ensures (State(), response) == OpenSwept(old(State()), capacity, key, inputs)
    {
      if hostSession.Some? && hostSession.value.key == key {
        return HostSessionReused(hostSession.value.env);
      }
      var index := Position(parked, key);
      if index.Some? {
        response := HostSessionReused(parked[index.value].env);
        Unpark(index.value);
      } else {
        ParkCurrent();
        EvictLeastRecentlyUsed(inputs.evictClear);
        response := OpenThroughAnchor(key, inputs);
      }
    }

    method Unpark(index: nat)
      requires index < |parked|
      modifies this
      ensures State() == SwapIn(old(State()), index)
    {
      var state := parked[index];
      parked := parked[..index] + parked[index + 1..];
      if hostSession.Some? { parked := parked + [hostSession.value]; }
      hostSession := Some(state);
    }

    method ParkCurrent()
      modifies this
      ensures State() == Park(old(State()))
    {
      if hostSession.Some? {
        parked := parked + [hostSession.value];
        hostSession := None;
      }
    }

    /** Reuse the anchor for this project and mode, or build and keep one; then import. */
    method OpenThroughAnchor(key: HostSessionKey, inputs: OpenInputs) returns (response: Response)
      modifies this
      ensures (State(), response) == AnchorAndImport(old(State()), key, inputs)
    {
      var anchor := HostAnchor(key.projectRoot, key.mode);
      if anchor !in anchors {
        registry := inputs.registryAfterAnchor;
        if !inputs.anchorBuilt { return Error(inputs.errorCode); }
        anchors := anchors + [anchor];
        events := events + [AnchorBuilt(anchor)];
      }
      response := ImportSession(key, inputs);
    }

    method ProcessModuleQueryBatch(session: Session, query: ModuleQuery, inputs: QueryInputs)
      returns (response: Response)
      modifies this
      ensures (State(), response)
           == Query(old(State()), QueryKey(toolchain, session.key, query), session, query, inputs)
    {
      var cacheKey := FeedHasher(QueryKeyInputs(toolchain, session.key, query));
      response := AnswerCached(cacheKey, session, query, inputs);
    }

    method AnswerCached(cacheKey: Text, session: Session, query: ModuleQuery, inputs: QueryInputs)
      returns (response: Response)
      modifies this
      ensures (State(), response) == Query(old(State()), cacheKey, session, query, inputs)
    {
      if ShouldClearForRssGuard(inputs.guardKib, inputs.rssKib) {
        ClearModuleSnapshotCache(inputs.guardClear);
        if !inputs.guardClear { return Error(inputs.errorCode); }
      }
      snapshots := snapshots - inputs.lostBefore;
      match inputs.lookup {
        case Failed(code) => response := Error(code);
        case Unsupported => response := Answer(Snapshot(session.env, query));
        case Supported =>
          if cacheKey in snapshots {
            response := Answer(snapshots[cacheKey]);
          } else {
            var built := Snapshot(session.env, query);
            snapshots := snapshots[cacheKey := built];
            events := events + [SnapshotStored(built)];
            response := Answer(built);
          }
          snapshots := snapshots - inputs.lostAfter;
      }
    }

    method ServeQuery(query: ModuleQuery, inputs: QueryInputs) returns (response: Response)
      requires capacity >= 1
      modifies this
      ensures (State(), response) == Serve(old(State()), capacity, toolchain, Request.ProcessModuleQueryBatch(query, inputs))
    {
      if hostSession.None? { return Error(SESSION_MISSING); }
      registry := registry + inputs.registered;
      response := ProcessModuleQueryBatch(hostSession.value, query, inputs);
    }

    method ServeClear(ok: bool, registered: nat, clearError: string) returns (response: Response)
      requires capacity >= 1
      modifies this
      ensures (State(), response)
           == Serve(old(State()), capacity, toolchain, Request.ClearModuleSnapshotCache(ok, registered, clearError))
    {
      if hostSession.None? { return Error(SESSION_MISSING); }
      registry := registry + registered;
      ClearModuleSnapshotCache(ok);
      response := if ok then SnapshotCacheCleared else Error(clearError);
    }

    method ServeCommand(command: Text, registered: nat, failure: Option<string>) returns (response: Response)
      requires capacity >= 1
      modifies this
      ensures (State(), response) == Serve(old(State()), capacity, toolchain, HostCommand(command, registered, failure))
    {
      if hostSession.None? { return Error(SESSION_MISSING); }
      registry := registry + registered;
      response := if failure.Some? then Error(failure.value) else CommandDone(hostSession.value, command);
    }

    /** One turn of the loop: dispatch on the request. */
    method ServeRequest(request: Request) returns (response: Response)
      requires Valid()
      modifies this
      ensures Valid()
      ensures (State(), response) == Serve(old(State()), capacity, toolchain, request)
    {
      ServeKeepsPool(State(), capacity, toolchain, request);
      match request {
        case Health => response := HealthOk;
        case OpenHostSession(key, inputs) => response := OpenOrReuseHostSession(key, inputs);
        case ProcessModuleQueryBatch(query, inputs) => response := ServeQuery(query, inputs);
        case ClearModuleSnapshotCache(ok, registered, clearError) => response := ServeClear(ok, registered, clearError);
        case HostCommand(command, registered, failure) => response := ServeCommand(command, registered, failure);
      }
    }
  }

  lemma {:induction false} StaleOnlyAppend(live: Option<nat>, xs: seq<Session>, ys: seq<Session>)
    ensures StaleOnly(live, xs + ys) == StaleOnly(live, xs) + StaleOnly(live, ys)
  {
    var all := xs + ys;
    if xs == [] {
      assert all == ys;
    } else {
      assert all[0] == xs[0] && all[1..] == xs[1..] + ys;
      StaleOnlyAppend(live, xs[1..], ys);
    }
  }

  lemma {:induction false} DropsAppend(xs: seq<Session>, ys: seq<Session>)
    ensures Drops(xs + ys) == Drops(xs) + Drops(ys)
  {
    if xs == [] {
      assert xs + ys == ys;
    } else {
      DropsAppend(xs[1..], ys);
      assert (xs + ys)[1..] == xs[1..] + ys && (xs + ys)[0] == xs[0];
    }
  }

  /** The stale sessions among the parked and the current one, and the order they are dropped in. */
  lemma StaleOfBoth(live: Option<nat>, parked: seq<Session>, current: Option<Session>)
    ensures var held := parked + if current.Some? then [current.value] else [];
            var stale := StaleOnly(live, parked);
            if current.Some? && IsStale(live, current.value) then
              StaleOnly(live, held) == stale + [current.value]
              && Drops(StaleOnly(live, held)) == Drops(stale) + Drops([current.value])
            else StaleOnly(live, held) == stale
  {
    var last := if current.Some? then [current.value] else [];
    StaleOnlyAppend(live, parked, last);
    if current.Some? { assert last[1..] == []; }
    DropsAppend(StaleOnly(live, parked), last);
  }
}
