/** The worker child: the imported environments it holds, the process-global snapshot cache
    and extension registry, and one step per request
    (crates/lean-rs-worker-child/src/child.rs:340-714, 1051-1204, 1856-1952).

    Lean's own answers (whether a read, a clear, a build or an import succeeds, and where
    the registry stands afterwards) are inputs, so every statement about a step holds for
    all of them. The registry is append-only
    (crates/lean-rs-host/shims/lean-rs-host-shims/LeanRsHostShims/Environment.lean:328-336),
    so what a request other than an open does to it is the number of registrations it makes:
    a query of a `module` file imports with initializers enabled
    (crates/lean-rs-host/shims/lean-rs-host-shims/LeanRsHostShims/InfoTree.lean:1874-1879). */
module WorkerChildModel {
  import opened Prelude
  import opened ModeEncoding
  import opened SnapshotCacheKey

  /** Everything that determines which environment an open asks for; equality is the reuse
      predicate. */
  datatype HostSessionKey = HostSessionKey(projectRoot: Text, mode: HostSessionMode, imports: seq<Text>,
                                           importProfile: SessionImportProfile)

  /** A held session: its key, the registry stamp of its import, and a serial number that
      names the imported environment itself. */
  datatype Session = Session(key: HostSessionKey, epoch: nat, env: nat)

  datatype HostAnchor = HostAnchor(projectRoot: Text, mode: HostSessionMode)

  datatype ModuleQuery = ModuleQuery(source: Text, options: ElabOptions)

  /** What elaborating a query's source against an environment yields: a function of the two. */
  datatype Snapshot = Snapshot(env: nat, query: ModuleQuery)

  /** The effects whose order the source promises. */
  datatype Event =
    | SnapshotsCleared(ok: bool)
    | SessionDropped(session: Session)
    | SessionOpened(session: Session)
    | SnapshotStored(snapshot: Snapshot)
    | AnchorBuilt(anchor: HostAnchor)

  datatype ChildState = ChildState(
    hostSession: Option<Session>,
    parked: seq<Session>,
    anchors: seq<HostAnchor>,
    registry: nat,
    snapshots: map<Text, Snapshot>,
    imports: nat,
    events: seq<Event>)

  /** Lean's answers during one open. */
  datatype OpenInputs = OpenInputs(
    firstRead: bool, firstClear: bool,
    evictClear: bool,
    anchorBuilt: bool, registryAfterAnchor: nat,
    imported: bool, registryAfterImport: nat,
    lastRead: bool, lastClear: bool,
    errorCode: string)

  datatype CachedLookup = Supported | Unsupported | Failed(code: string)

  /** Lean's answers during one batch query. Lean may lose any entries on its own, before
      the lookup (`lostBefore`) and after the answer (`lostAfter`): time to live, size,
      entry count. */
  datatype QueryInputs = QueryInputs(
    guardKib: nat, rssKib: Option<nat>, guardClear: bool,
    lostBefore: set<Text>, lookup: CachedLookup, lostAfter: set<Text>,
    registered: nat, errorCode: string)

  datatype Request =
    | Health
    | OpenHostSession(key: HostSessionKey, open: OpenInputs)
    | ProcessModuleQueryBatch(query: ModuleQuery, inputs: QueryInputs)
    | ClearModuleSnapshotCache(ok: bool, registered: nat, clearError: string)
    | HostCommand(command: Text, registered: nat, failure: Option<string>)

  datatype Response =
    | HealthOk
    | HostSessionOpened(importStats: nat)
    | HostSessionReused(importStats: nat)
    | Answer(snapshot: Snapshot)
    | CommandDone(servedBy: Session, command: Text)
    | SnapshotCacheCleared
    | Error(code: string)

  const SESSION_MISSING := "lean_rs.worker.session_missing"
  const SESSION_POOL_DEFAULT_CAPACITY := 4

  /** `session_pool_capacity`, given what the environment variable parsed to. */
  function SessionPoolCapacity(configured: Option<nat>): (capacity: nat)
    ensures capacity >= 1
    ensures configured.Some? && configured.value >= 1 ==> capacity == configured.value
    ensures configured == Some(0) ==> capacity == 1
    ensures configured.None? ==> capacity == 4
  {
    var raw := if configured.Some? then configured.value else SESSION_POOL_DEFAULT_CAPACITY;
    if raw < 1 then 1 else raw
  }

  function Initial(registry: nat): ChildState {
    ChildState(None, [], [], registry, map[], 0, [])
  }

  // ----- pure pieces -----

  /** Every live environment: the parked ones, least recently used first, then the current one. */
  function Held(s: ChildState): seq<Session> {
    s.parked + (if s.hostSession.Some? then [s.hostSession.value] else [])
  }

  function IsStale(live: Option<nat>, session: Session): bool {
    live != Some(session.epoch)
  }

  /** `Vec::retain` of the sessions that are not stale. */
  function FreshOnly(live: Option<nat>, sessions: seq<Session>): (r: seq<Session>)
    ensures |r| <= |sessions|
  {
    if sessions == [] then []
    else if IsStale(live, sessions[0]) then FreshOnly(live, sessions[1..])
    else [sessions[0]] + FreshOnly(live, sessions[1..])
  }

  function StaleOnly(live: Option<nat>, sessions: seq<Session>): seq<Session> {
    if sessions == [] then []
    else if IsStale(live, sessions[0]) then [sessions[0]] + StaleOnly(live, sessions[1..])
    else StaleOnly(live, sessions[1..])
  }

  /** The scan for a session with the key. */
  function Position(sessions: seq<Session>, key: HostSessionKey): (index: Option<nat>)
    ensures index.Some? ==> index.value < |sessions| && sessions[index.value].key == key
    ensures index.None? ==> forall i :: 0 <= i < |sessions| ==> sessions[i].key != key
  {
    FirstIndex(sessions, (session: Session) => session.key == key)
  }

  function Drops(sessions: seq<Session>): seq<Event> {
    if sessions == [] then [] else [SessionDropped(sessions[0])] + Drops(sessions[1..])
  }

  function ClearSnapshots(s: ChildState, ok: bool): ChildState {
    s.(snapshots := if ok then map[] else s.snapshots, events := s.events + [SnapshotsCleared(ok)])
  }

  /** The bytes behind the cache key of a query against a session. */
  function QueryKey(toolchain: Toolchain, key: HostSessionKey, query: ModuleQuery): Text {
    Preimage(QueryKeyInputs(toolchain, key, query))
  }

  function QueryKeyInputs(toolchain: Toolchain, key: HostSessionKey, query: ModuleQuery): KeyInputs {
    KeyInputs(key.projectRoot, key.mode, query.source, key.imports, key.importProfile, query.options,
              query.options.fileLabel, toolchain)
  }

  /** Registrations made while a request is served. */
  function Register(s: ChildState, registered: nat): ChildState {
    s.(registry := s.registry + registered)
  }

  function ShouldClearForRssGuard(guardKib: nat, rssKib: Option<nat>): bool {
    guardKib != 0 && rssKib.Some? && rssKib.value >= guardKib
  }

  // ----- the steps, as functions of the state -----

  /** `evict_stale_host_sessions`. A failed read makes every session stale. */
  function Sweep(s: ChildState, readOk: bool, clearOk: bool): ChildState {
    var live := if readOk then Some(s.registry) else None;
    var stale := StaleOnly(live, Held(s));
    if stale == [] then s
    else
      var c := ClearSnapshots(s, clearOk);
      c.(hostSession := if s.hostSession.Some? && !IsStale(live, s.hostSession.value) then s.hostSession else None,
         parked := FreshOnly(live, s.parked),
         events := c.events + Drops(stale))
  }

  /** `host_session.take()` onto the back of `parked`. */
  function Park(s: ChildState): ChildState {
    s.(hostSession := None, parked := Held(s))
  }

  /** Evict from the front until fewer than `capacity` are parked, clearing before each drop. */
  function EvictToFit(s: ChildState, capacity: nat, clearOk: bool): ChildState
    requires capacity >= 1
    decreases |s.parked|
  {
    if |s.parked| < capacity then s
    else
      var c := ClearSnapshots(s, clearOk);
      EvictToFit(c.(parked := s.parked[1..], events := c.events + [SessionDropped(s.parked[0])]), capacity, clearOk)
  }

  function FindOrBuildAnchor(s: ChildState, key: HostSessionKey, inputs: OpenInputs): (r: (ChildState, bool)) {
    var anchor := HostAnchor(key.projectRoot, key.mode);
    if anchor in s.anchors then (s, true)
    else if inputs.anchorBuilt then
      (s.(anchors := s.anchors + [anchor], registry := inputs.registryAfterAnchor,
          events := s.events + [AnchorBuilt(anchor)]), true)
    else (s.(registry := inputs.registryAfterAnchor), false)
  }

  /** A new environment, stamped with the registry, becomes the current session. */
  function Install(s: ChildState, key: HostSessionKey, registry: nat): ChildState {
    var session := Session(key, registry, s.imports);
    s.(registry := registry, hostSession := Some(session), imports := s.imports + 1,
       events := s.events + [SessionOpened(session)])
  }

  /** Import, stamp with the registry as it stands afterwards, install, sweep. */
  function Import(s: ChildState, key: HostSessionKey, inputs: OpenInputs): (ChildState, Response) {
    if !inputs.imported then
      (s.(registry := inputs.registryAfterImport), Error(inputs.errorCode))
    else
      (Sweep(Install(s, key, inputs.registryAfterImport), inputs.lastRead, inputs.lastClear),
       HostSessionOpened(s.imports))
  }

  function AnchorAndImport(s: ChildState, key: HostSessionKey, inputs: OpenInputs): (ChildState, Response) {
    var (s', anchored) := FindOrBuildAnchor(s, key, inputs);
    if anchored then Import(s', key, inputs) else (s', Error(inputs.errorCode))
  }

  /** A pooled hit: the session leaves its place and the outgoing one goes to the back. */
  function SwapIn(s: ChildState, i: nat): ChildState
    requires i < |s.parked|
  {
    var outgoing := if s.hostSession.Some? then [s.hostSession.value] else [];
    s.(parked := s.parked[..i] + s.parked[i + 1..] + outgoing, hostSession := Some(s.parked[i]))
  }

  /** `open_or_reuse_host_session` after its first sweep: reuse the current session, or a
      parked one, or park, evict and import. */
  function OpenSwept(s: ChildState, capacity: nat, key: HostSessionKey, inputs: OpenInputs): (ChildState, Response)
    requires capacity >= 1
  {
    if s.hostSession.Some? && s.hostSession.value.key == key then (s, HostSessionReused(s.hostSession.value.env))
    else match Position(s.parked, key)
         case Some(i) => (SwapIn(s, i), HostSessionReused(s.parked[i].env))
         case None => AnchorAndImport(EvictToFit(Park(s), capacity, inputs.evictClear), key, inputs)
  }

  /** `open_or_reuse_host_session`. */
  function Open(s: ChildState, capacity: nat, key: HostSessionKey, inputs: OpenInputs): (ChildState, Response)
    requires capacity >= 1
  {
    OpenSwept(Sweep(s, inputs.firstRead, inputs.firstClear), capacity, key, inputs)
  }

  /** The cached lookup, by key before anything else, and the uncached fallback. */
  function LookUp(s: ChildState, cacheKey: Text, built: Snapshot, inputs: QueryInputs): (ChildState, Response) {
    var present := s.snapshots - inputs.lostBefore;
    match inputs.lookup
    case Failed(code) => (s.(snapshots := present), Error(code))
    case Unsupported => (s.(snapshots := present), Answer(built))
    case Supported =>
      if cacheKey in present then (s.(snapshots := present - inputs.lostAfter), Answer(present[cacheKey]))
      else (s.(snapshots := present[cacheKey := built] - inputs.lostAfter, events := s.events + [SnapshotStored(built)]),
            Answer(built))
  }

  /** `process_module_query_batch` on the current session: the memory guard, then the lookup. */
  function Query(s: ChildState, cacheKey: Text, session: Session, query: ModuleQuery, inputs: QueryInputs)
    : (ChildState, Response)
  {
    if !ShouldClearForRssGuard(inputs.guardKib, inputs.rssKib) then
      LookUp(s, cacheKey, Snapshot(session.env, query), inputs)
    else if inputs.guardClear then
      LookUp(ClearSnapshots(s, true), cacheKey, Snapshot(session.env, query), inputs)
    else (ClearSnapshots(s, false), Error(inputs.errorCode))
  }

  /** One turn of the `serve_stdio` loop. */
  function Serve(s: ChildState, capacity: nat, toolchain: Toolchain, request: Request): (ChildState, Response)
    requires capacity >= 1
  {
    match request
    case Health => (s, HealthOk)
    case OpenHostSession(key, inputs) => Open(s, capacity, key, inputs)
    case ProcessModuleQueryBatch(query, inputs) =>
      if s.hostSession.None? then (s, Error(SESSION_MISSING))
      else Query(Register(s, inputs.registered), QueryKey(toolchain, s.hostSession.value.key, query),
                 s.hostSession.value, query, inputs)
    case ClearModuleSnapshotCache(ok, registered, clearError) =>
      if s.hostSession.None? then (s, Error(SESSION_MISSING))
      else (ClearSnapshots(Register(s, registered), ok), if ok then SnapshotCacheCleared else Error(clearError))
    case HostCommand(command, registered, failure) =>
      if s.hostSession.None? then (s, Error(SESSION_MISSING))
      else (Register(s, registered),
            if failure.Some? then Error(failure.value) else CommandDone(s.hostSession.value, command))
  }

  /** The state after a run of requests from a fresh child. */
  function Run(registry: nat, capacity: nat, toolchain: Toolchain, requests: seq<Request>): ChildState
    requires capacity >= 1
  {
    if requests == [] then Initial(registry)
    else
      var n := |requests| - 1;
      Serve(Run(registry, capacity, toolchain, requests[..n]), capacity, toolchain, requests[n]).0
  }

  /** The reply to request `i` of a run. */
  function ReplyAt(registry: nat, capacity: nat, toolchain: Toolchain, requests: seq<Request>, i: nat): Response
    requires capacity >= 1 && i < |requests|
  {
    Serve(Run(registry, capacity, toolchain, requests[..i]), capacity, toolchain, requests[i]).1
  }
}
