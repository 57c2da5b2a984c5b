/** The sessions and queries a run is about, and when no two of their cache keys coincide
    (crates/lean-rs-worker-child/src/child.rs:1930-1952, 2605-2668). */
module QueryScope {
  import opened Prelude
  import opened SnapshotCacheKey
  import opened CacheKeyCollisions
  import opened WorkerChildModel

  /** Any sessions, any queries. */
  datatype Scope = Scope(toolchain: Toolchain, keys: iset<HostSessionKey>, queries: iset<ModuleQuery>)

  ghost predicate InScope(scope: Scope, request: Request) {
    match request
    case OpenHostSession(key, _) => key in scope.keys
    case ProcessModuleQueryBatch(query, _) => query in scope.queries
    case _ => true
  }

  ghost predicate RunOver(scope: Scope, requests: seq<Request>) {
    forall i :: 0 <= i < |requests| ==> InScope(scope, requests[i])
  }

  /** Two queries that have one cache key are one query of one session. With a single slot
      only queries of one session ever meet in the cache, so only those count. */
  ghost predicate Separated(scope: Scope, capacity: nat) {
    forall a, b, p, q |
      && a in scope.keys && b in scope.keys && p in scope.queries && q in scope.queries
      && (capacity >= 2 || a == b)
      && QueryKey(scope.toolchain, a, p) == QueryKey(scope.toolchain, b, q) :: a == b && p == q
  }

  /** Query `p` of session `a` and query `q` of session `b`, cut at every NUL, read the same. */
  ghost predicate Alike(toolchain: Toolchain, a: HostSessionKey, p: ModuleQuery, b: HostSessionKey, q: ModuleQuery) {
    && Flatten(Segments(QueryKeyInputs(toolchain, a, p))) == Flatten(Segments(QueryKeyInputs(toolchain, b, q)))
    && p.options.heartbeatLimit == q.options.heartbeatLimit
    && p.options.diagnosticByteLimit == q.options.diagnosticByteLimit
  }

  /** What a query against a session puts where: the session decides project, mode, imports and
      profile, the query its source and options, and the file label stands for the file. */
  lemma QueryKeyReads(toolchain: Toolchain, key: HostSessionKey, query: ModuleQuery)
    ensures var k := QueryKeyInputs(toolchain, key, query);
            && QueryKey(toolchain, key, query) == Preimage(k)
            && k.projectRoot == key.projectRoot && k.mode == key.mode && k.imports == key.imports
            && k.importProfile == key.importProfile && k.source == query.source && k.options == query.options
            && k.fileIdentity == query.options.fileLabel && k.toolchain == toolchain
  {
  }

  /** No two different queries of the scope read the same; with a single slot, of one session. */
  ghost predicate NoTwoAlike(scope: Scope, capacity: nat) {
    forall a, b, p, q |
      && a in scope.keys && b in scope.keys && p in scope.queries && q in scope.queries
      && (capacity >= 2 || a == b) && Alike(scope.toolchain, a, p, b, q) :: a == b && p == q
  }

  lemma AlikeExactly(toolchain: Toolchain, a: HostSessionKey, p: ModuleQuery, b: HostSessionKey, q: ModuleQuery)
    ensures Alike(toolchain, a, p, b, q) <==> QueryKey(toolchain, a, p) == QueryKey(toolchain, b, q)
  {
    PreimagesCollideExactly(QueryKeyInputs(toolchain, a, p), QueryKeyInputs(toolchain, b, q));
    if NumericTail(p.options) == NumericTail(q.options) {
      NumericTailInjective(p.options, q.options);
    }
  }

  lemma NoTwoAlikeIsSeparated(scope: Scope, capacity: nat)
    ensures NoTwoAlike(scope, capacity) <==> Separated(scope, capacity)
  {
    if NoTwoAlike(scope, capacity) {
      forall a, b, p, q |
        && a in scope.keys && b in scope.keys && p in scope.queries && q in scope.queries
        && (capacity >= 2 || a == b) && QueryKey(scope.toolchain, a, p) == QueryKey(scope.toolchain, b, q)
        ensures a == b && p == q
      {
        AlikeExactly(scope.toolchain, a, p, b, q);
      }
    }
    if Separated(scope, capacity) {
      forall a, b, p, q |
        && a in scope.keys && b in scope.keys && p in scope.queries && q in scope.queries
        && (capacity >= 2 || a == b) && Alike(scope.toolchain, a, p, b, q)
        ensures a == b && p == q
      {
        AlikeExactly(scope.toolchain, a, p, b, q);
      }
    }
  }

  lemma KeyNamesSession(scope: Scope, capacity: nat, a: HostSessionKey, p: ModuleQuery, b: HostSessionKey, q: ModuleQuery)
    requires Separated(scope, capacity) && (capacity >= 2 || a == b)
    requires a in scope.keys && b in scope.keys && p in scope.queries && q in scope.queries
    requires QueryKey(scope.toolchain, a, p) == QueryKey(scope.toolchain, b, q)
    ensures a == b && p == q
  {
  }

  // ----- texts without NULs -----

  /** The texts of a session key that reach the cache key without escaping. */
  ghost predicate NulFreeKey(key: HostSessionKey) {
    NulFree(key.projectRoot) && forall i :: 0 <= i < |key.imports| ==> NulFree(key.imports[i])
  }

  ghost predicate NulFreeQuery(query: ModuleQuery) {
    NulFree(query.source) && NulFree(query.options.namespaceContext) && NulFree(query.options.fileLabel)
  }

  ghost predicate NulFreeToolchain(t: Toolchain) {
    && NulFree(t.leanVersion) && NulFree(t.resolvedVersion) && NulFree(t.headerSha256)
    && NulFree(t.fixtureSha256) && NulFree(t.hostTriple)
  }

  /** All sessions and all queries whose texts hold no NUL. */
  ghost function NulFreeScope(toolchain: Toolchain): Scope {
    Scope(toolchain, iset key: HostSessionKey | NulFreeKey(key), iset query: ModuleQuery | NulFreeQuery(query))
  }

  /** Texts without NULs are separated, however many sessions share the cache. */
  lemma NulFreeScopeIsSeparated(toolchain: Toolchain, capacity: nat)
    requires NulFreeToolchain(toolchain)
    ensures Separated(NulFreeScope(toolchain), capacity)
  {
    var scope := NulFreeScope(toolchain);
    forall a, b, p, q |
      && a in scope.keys && b in scope.keys && p in scope.queries && q in scope.queries
      && QueryKey(toolchain, a, p) == QueryKey(toolchain, b, q)
      ensures a == b && p == q
    {
      PreimageInjective(QueryKeyInputs(toolchain, a, p), QueryKeyInputs(toolchain, b, q));
    }
  }
}
