/** What the process-global snapshot cache holds: with clears that work, only snapshots of
    environments that are still held, so that no cached snapshot pins a dropped one
    (crates/lean-rs-worker-child/src/child.rs:1043-1050, 1097-1116, 1179-1204). */
module SnapshotPinning {
  import opened Prelude
  import opened WorkerChildModel
  import opened PoolStructure
  import opened QueryScope

  /** Every clear that precedes a drop succeeds. A failed clear of the memory guard is
      harmless: it fails the request. */
  predicate ClearsWork(request: Request) {
    request.OpenHostSession? ==> request.open.firstClear && request.open.evictClear && request.open.lastClear
  }

  ghost predicate OrderlyRun(scope: Scope, requests: seq<Request>) {
    RunOver(scope, requests) && forall i :: 0 <= i < |requests| ==> ClearsWork(requests[i])
  }

  /** The entry under `cacheKey` was built by `session`, and lies under that session's own key. */
  ghost predicate BuiltBy(session: Session, scope: Scope, cacheKey: Text, snapshot: Snapshot) {
    && snapshot.env == session.env
    && snapshot.query in scope.queries
    && cacheKey == QueryKey(scope.toolchain, session.key, snapshot.query)
  }

  /** Every entry was built by a session that is still held. */
  ghost predicate EntriesAreLive(s: ChildState, scope: Scope) {
    forall k :: k in s.snapshots ==> exists x :: x in Held(s) && BuiltBy(x, scope, k, s.snapshots[k])
  }

  ghost predicate HeldKeysInScope(s: ChildState, scope: Scope) {
    forall x :: x in Held(s) ==> x.key in scope.keys
  }

  ghost predicate CacheOk(s: ChildState, scope: Scope) {
    EntriesAreLive(s, scope) && HeldKeysInScope(s, scope)
  }

  /** Alike up to the cache and the log. */
  ghost predicate SamePool(s: ChildState, t: ChildState) {
    t == s.(snapshots := t.snapshots, events := t.events)
  }

  // ----- keeping the entries live -----

  lemma EntriesFrame(s: ChildState, s': ChildState, scope: Scope)
    requires EntriesAreLive(s, scope)
    requires forall x :: x in Held(s) ==> x in Held(s')
    requires forall k :: k in s'.snapshots ==> k in s.snapshots && s'.snapshots[k] == s.snapshots[k]
    ensures EntriesAreLive(s', scope)
  {
    forall k | k in s'.snapshots ensures exists x :: x in Held(s') && BuiltBy(x, scope, k, s'.snapshots[k]) {
      var x :| x in Held(s) && BuiltBy(x, scope, k, s.snapshots[k]);
      assert x in Held(s');
    }
  }

  lemma SweepKeepsCache(s: ChildState, readOk: bool, scope: Scope)
    requires CacheOk(s, scope)
    ensures CacheOk(Sweep(s, readOk, true), scope)
  {
    SweepHolds(s, readOk, true);
    FreshOnlyMembers(LiveEpoch(s, readOk), Held(s));
  }

  lemma EvictKeepsCache(s: ChildState, capacity: nat, scope: Scope)
    requires capacity >= 1 && s.hostSession.None? && CacheOk(s, scope)
    ensures CacheOk(EvictToFit(s, capacity, true), scope)
  {
    EvictToFitHolds(s, capacity, true);
    var s' := EvictToFit(s, capacity, true);
    assert forall x :: x in Held(s') ==> x in Held(s);
    if |s.parked| >= capacity { EvictionClears(s, capacity); }
  }

  lemma {:induction false} EvictionClears(s: ChildState, capacity: nat)
    requires 1 <= capacity <= |s.parked|
    ensures EvictToFit(s, capacity, true).snapshots == map[]
    decreases |s.parked|
  {
    var c := ClearSnapshots(s, true);
    var next := c.(parked := s.parked[1..], events := c.events + [SessionDropped(s.parked[0])]);
    if |next.parked| >= capacity { EvictionClears(next, capacity); }
  }

  lemma InstallKeepsCache(s: ChildState, key: HostSessionKey, registry: nat, scope: Scope)
    requires CacheOk(s, scope) && s.hostSession.None? && key in scope.keys
    ensures CacheOk(Install(s, key, registry), scope)
  {
    assert Held(Install(s, key, registry)) == Held(s) + [Session(key, registry, s.imports)];
    EntriesFrame(s, Install(s, key, registry), scope);
  }

  lemma RegistryIsOutsideTheCache(s: ChildState, registry: nat, scope: Scope)
    requires CacheOk(s, scope)
    ensures CacheOk(s.(registry := registry), scope)
  {
    var s' := s.(registry := registry);
    assert Held(s') == Held(s);
    EntriesFrame(s, s', scope);
  }

  lemma AnchorsAreOutsideTheCache(s: ChildState, key: HostSessionKey, inputs: OpenInputs, scope: Scope)
    requires CacheOk(s, scope)
    ensures CacheOk(FindOrBuildAnchor(s, key, inputs).0, scope)
  {
    var s' := FindOrBuildAnchor(s, key, inputs).0;
    assert Held(s') == Held(s);
    EntriesFrame(s, s', scope);
  }

  lemma ImportKeepsCache(s: ChildState, key: HostSessionKey, inputs: OpenInputs, scope: Scope)
    requires CacheOk(s, scope) && s.hostSession.None? && key in scope.keys && inputs.lastClear
    ensures CacheOk(AnchorAndImport(s, key, inputs).0, scope)
  {
    var (anchored, found) := FindOrBuildAnchor(s, key, inputs);
    AnchorsAreOutsideTheCache(s, key, inputs, scope);
    if found {
      ImportAnchoredKeepsCache(anchored, key, inputs, scope);
    }
  }

  lemma ImportAnchoredKeepsCache(s: ChildState, key: HostSessionKey, inputs: OpenInputs, scope: Scope)
    requires CacheOk(s, scope) && s.hostSession.None? && key in scope.keys && inputs.lastClear
    ensures CacheOk(Import(s, key, inputs).0, scope)
  {
    InstallKeepsCache(s, key, inputs.registryAfterImport, scope);
    SweepKeepsCache(Install(s, key, inputs.registryAfterImport), inputs.lastRead, scope);
    RegistryIsOutsideTheCache(s, inputs.registryAfterImport, scope);
  }

  lemma OpenKeepsCache(s: ChildState, capacity: nat, key: HostSessionKey, inputs: OpenInputs, scope: Scope)
    requires capacity >= 1 && CacheOk(s, scope) && key in scope.keys
    requires inputs.firstClear && inputs.evictClear && inputs.lastClear
    ensures CacheOk(Open(s, capacity, key, inputs).0, scope)
  {
    SweepKeepsCache(s, inputs.firstRead, scope);
    OpenSweptKeepsCache(Sweep(s, inputs.firstRead, true), capacity, key, inputs, scope);
  }

  lemma SwapKeepsCache(s: ChildState, i: nat, scope: Scope)
    requires CacheOk(s, scope) && i < |s.parked|
    ensures CacheOk(SwapIn(s, i), scope)
  {
    var s' := SwapIn(s, i);
    SwapHolds(s, i);
    assert forall x :: x in Held(s') ==> x in multiset(Held(s'));
    assert forall x :: x in Held(s) ==> x in multiset(Held(s));
    EntriesFrame(s, s', scope);
  }

  lemma OpenSweptKeepsCache(s: ChildState, capacity: nat, key: HostSessionKey, inputs: OpenInputs, scope: Scope)
    requires capacity >= 1 && CacheOk(s, scope) && key in scope.keys && inputs.evictClear && inputs.lastClear
    ensures CacheOk(OpenSwept(s, capacity, key, inputs).0, scope)
  {
    if s.hostSession.Some? && s.hostSession.value.key == key {
    } else if Position(s.parked, key).Some? {
      SwapKeepsCache(s, Position(s.parked, key).value, scope);
    } else {
      ParkHolds(s);
      EntriesFrame(s, Park(s), scope);
      EvictKeepsCache(Park(s), capacity, scope);
      EvictToFitHolds(Park(s), capacity, true);
      ImportKeepsCache(EvictToFit(Park(s), capacity, true), key, inputs, scope);
    }
  }

  lemma StoreKeepsCache(s: ChildState, scope: Scope, cacheKey: Text, session: Session, built: Snapshot)
    requires CacheOk(s, scope) && session in Held(s) && BuiltBy(session, scope, cacheKey, built)
    ensures CacheOk(s.(snapshots := s.snapshots[cacheKey := built]), scope)
  {
    var s' := s.(snapshots := s.snapshots[cacheKey := built]);
    assert Held(s') == Held(s);
    forall k | k in s'.snapshots ensures exists x :: x in Held(s') && BuiltBy(x, scope, k, s'.snapshots[k]) {
      if k == cacheKey {
        assert session in Held(s');
      } else {
        var x :| x in Held(s) && BuiltBy(x, scope, k, s.snapshots[k]);
        assert x in Held(s');
      }
    }
  }

  lemma LossKeepsCache(s: ChildState, s': ChildState, scope: Scope, lost: set<Text>)
    requires CacheOk(s, scope) && SamePool(s, s') && s'.snapshots == s.snapshots - lost
    ensures CacheOk(s', scope)
  {
    assert Held(s') == Held(s);
    EntriesFrame(s, s', scope);
  }

  lemma LookUpKeepsCache(s: ChildState, scope: Scope, cacheKey: Text, session: Session, query: ModuleQuery,
                         inputs: QueryInputs)
    requires CacheOk(s, scope) && session in Held(s)
    requires BuiltBy(session, scope, cacheKey, Snapshot(session.env, query))
    ensures CacheOk(LookUp(s, cacheKey, Snapshot(session.env, query), inputs).0, scope)
  {
    var built := Snapshot(session.env, query);
    var s' := LookUp(s, cacheKey, built, inputs).0;
    var present := s.(snapshots := s.snapshots - inputs.lostBefore);
    LossKeepsCache(s, present, scope, inputs.lostBefore);
    var stored := present.(snapshots := present.snapshots[cacheKey := built]);
    assert Held(present) == Held(s);
    StoreKeepsCache(present, scope, cacheKey, session, built);
    if !inputs.lookup.Supported? {
    } else if cacheKey in present.snapshots {
      LossKeepsCache(present, s', scope, inputs.lostAfter);
    } else {
      LossKeepsCache(stored, s', scope, inputs.lostAfter);
    }
  }

  lemma ClearKeepsCache(s: ChildState, ok: bool, scope: Scope)
    requires CacheOk(s, scope)
    ensures CacheOk(ClearSnapshots(s, ok), scope)
  {
    assert Held(ClearSnapshots(s, ok)) == Held(s);
    EntriesFrame(s, ClearSnapshots(s, ok), scope);
  }

  lemma QueryKeepsCache(s: ChildState, scope: Scope, cacheKey: Text, session: Session, query: ModuleQuery,
                        inputs: QueryInputs)
    requires CacheOk(s, scope) && s.hostSession == Some(session)
    requires BuiltBy(session, scope, cacheKey, Snapshot(session.env, query))
    ensures CacheOk(Query(s, cacheKey, session, query, inputs).0, scope)
  {
    var cleared := ClearSnapshots(s, true);
    assert session == Held(s)[|s.parked|] && Held(cleared) == Held(s);
    LookUpKeepsCache(s, scope, cacheKey, session, query, inputs);
    ClearKeepsCache(s, true, scope);
    ClearKeepsCache(s, false, scope);
    LookUpKeepsCache(cleared, scope, cacheKey, session, query, inputs);
  }

  lemma ServeKeepsCache(s: ChildState, capacity: nat, scope: Scope, request: Request)
    requires capacity >= 1 && CacheOk(s, scope) && InScope(scope, request) && ClearsWork(request)
    ensures CacheOk(Serve(s, capacity, scope.toolchain, request).0, scope)
  {
    match request
    case OpenHostSession(key, inputs) => OpenKeepsCache(s, capacity, key, inputs, scope);
    case ProcessModuleQueryBatch(query, inputs) =>
      if s.hostSession.Some? {
        var session := s.hostSession.value;
        var cacheKey := QueryKey(scope.toolchain, session.key, query);
        assert session == Held(s)[|s.parked|];
        RegistryIsOutsideTheCache(s, s.registry + inputs.registered, scope);
        QueryKeepsCache(Register(s, inputs.registered), scope, cacheKey, session, query, inputs);
      }
    case ClearModuleSnapshotCache(ok, registered, _) =>
      RegistryIsOutsideTheCache(s, s.registry + registered, scope);
      ClearKeepsCache(Register(s, registered), ok, scope);
    case HostCommand(_, registered, _) =>
      RegistryIsOutsideTheCache(s, s.registry + registered, scope);
    case Health =>
  }

  lemma {:induction false} RunKeepsCache(registry: nat, capacity: nat, scope: Scope, requests: seq<Request>)
    requires capacity >= 1 && OrderlyRun(scope, requests)
    ensures CacheOk(Run(registry, capacity, scope.toolchain, requests), scope)
  {
    if requests != [] {
      var n := |requests| - 1;
      RunKeepsCache(registry, capacity, scope, requests[..n]);
      ServeKeepsCache(Run(registry, capacity, scope.toolchain, requests[..n]), capacity, scope, requests[n]);
    }
  }

  // ----- a hit is what recomputation would give -----

  /** Two held sessions may share the cache, or are one. */
  lemma HeldTogether(s: ChildState, capacity: nat, x: Session, y: Session)
    requires |Held(s)| <= capacity && x in Held(s) && y in Held(s)
    ensures capacity >= 2 || x == y
  {
    var i :| 0 <= i < |Held(s)| && Held(s)[i] == x;
    var j :| 0 <= j < |Held(s)| && Held(s)[j] == y;
  }

  /** An entry found under the current session's own key was built by that session from that
      query: the key names the environment, and no two held sessions share a key. */
  lemma HitIsRecomputation(s: ChildState, capacity: nat, scope: Scope, session: Session, query: ModuleQuery)
    requires PoolInvariant(s, capacity) && CacheOk(s, scope) && Separated(scope, capacity)
    requires session in Held(s) && query in scope.queries
    requires QueryKey(scope.toolchain, session.key, query) in s.snapshots
    ensures s.snapshots[QueryKey(scope.toolchain, session.key, query)] == Snapshot(session.env, query)
  {
    var cacheKey := QueryKey(scope.toolchain, session.key, query);
    var snapshot := s.snapshots[cacheKey];
    var x :| x in Held(s) && BuiltBy(x, scope, cacheKey, snapshot);
    HeldTogether(s, capacity, session, x);
    KeyNamesSession(scope, capacity, session.key, query, x.key, snapshot.query);
  }

  // ----- which drops leave a pinned snapshot behind -----

  /** Snapshots of the session's environment are in the cache. */
  ghost predicate HasEntry(s: ChildState, x: Session) {
    exists k :: k in s.snapshots && s.snapshots[k].env == x.env
  }

  lemma LiveEntryNeedsItsSession(s: ChildState, s': ChildState, scope: Scope, x: Session)
    requires Distinct(Held(s)) && EntriesAreLive(s', scope)
    requires s'.snapshots == s.snapshots && forall y :: y in Held(s') ==> y in Held(s)
    requires x in Held(s) && HasEntry(s, x)
    ensures x in Held(s')
  {
    var k :| k in s.snapshots && s.snapshots[k].env == x.env;
    var y :| y in Held(s') && BuiltBy(y, scope, k, s'.snapshots[k]);
    OneEnvironmentEach(Held(s), x, y);
  }

  lemma OneEnvironmentEach(held: seq<Session>, x: Session, y: Session)
    requires Distinct(held) && x in held && y in held && x.env == y.env
    ensures x == y
  {
    var i :| 0 <= i < |held| && held[i] == x;
    var j :| 0 <= j < |held| && held[j] == y;
  }

  lemma HeldEntriesStayLive(s: ChildState, s': ChildState, scope: Scope)
    requires EntriesAreLive(s, scope) && s'.snapshots == s.snapshots
    requires forall x :: x in Held(s) && HasEntry(s, x) ==> x in Held(s')
    ensures EntriesAreLive(s', scope)
  {
    forall k | k in s'.snapshots ensures exists x :: x in Held(s') && BuiltBy(x, scope, k, s'.snapshots[k]) {
      var x :| x in Held(s) && BuiltBy(x, scope, k, s.snapshots[k]);
      assert HasEntry(s, x);
      assert x in Held(s');
    }
  }

  /** Dropping sessions without a clear keeps the entries live exactly when none of the
      dropped sessions has an entry. */
  lemma DropWithoutClear(s: ChildState, s': ChildState, scope: Scope)
    requires Distinct(Held(s)) && EntriesAreLive(s, scope)
    requires s'.snapshots == s.snapshots && forall x :: x in Held(s') ==> x in Held(s)
    ensures EntriesAreLive(s', scope) <==> forall x :: x in Held(s) && x !in Held(s') ==> !HasEntry(s, x)
  {
    if EntriesAreLive(s', scope) {
      forall x | x in Held(s) && HasEntry(s, x) ensures x in Held(s') {
        LiveEntryNeedsItsSession(s, s', scope, x);
      }
    }
    if forall x :: x in Held(s) && x !in Held(s') ==> !HasEntry(s, x) {
      HeldEntriesStayLive(s, s', scope);
    }
  }

  lemma SweepDropsStale(s: ChildState, readOk: bool, clearOk: bool, x: Session)
    requires x in Held(s)
    ensures x in Held(Sweep(s, readOk, clearOk)) <==> !IsStale(LiveEpoch(s, readOk), x)
    ensures forall y :: y in Held(Sweep(s, readOk, clearOk)) ==> y in Held(s)
  {
    SweepHolds(s, readOk, clearOk);
    FreshOnlyMembers(LiveEpoch(s, readOk), Held(s));
  }

  lemma SweepWithoutClear(s: ChildState, readOk: bool, scope: Scope)
    requires Distinct(Held(s)) && EntriesAreLive(s, scope)
    ensures EntriesAreLive(Sweep(s, readOk, false), scope) <==>
      forall x :: x in Held(s) && IsStale(LiveEpoch(s, readOk), x) ==> !HasEntry(s, x)
  {
    var s' := Sweep(s, readOk, false);
    SweepHolds(s, readOk, false);
    FreshOnlyMembers(LiveEpoch(s, readOk), Held(s));
    assert s'.snapshots == s.snapshots;
    DropWithoutClear(s, s', scope);
    forall x | x in Held(s) ensures x in Held(s') <==> !IsStale(LiveEpoch(s, readOk), x) {
      SweepDropsStale(s, readOk, false, x);
    }
  }

  lemma SweepWithClear(s: ChildState, readOk: bool, scope: Scope)
    requires EntriesAreLive(s, scope)
    ensures EntriesAreLive(Sweep(s, readOk, true), scope)
  {
    var s' := Sweep(s, readOk, true);
    if s'.snapshots != map[] { assert s' == s; }
  }

  /** A sweep keeps every entry live exactly when its clear succeeds or no stale session has
      an entry. */
  lemma SweepKeepsEntriesExactly(s: ChildState, readOk: bool, clearOk: bool, scope: Scope)
    requires Distinct(Held(s)) && EntriesAreLive(s, scope)
    ensures EntriesAreLive(Sweep(s, readOk, clearOk), scope) <==>
      clearOk || forall x :: x in Held(s) && IsStale(LiveEpoch(s, readOk), x) ==> !HasEntry(s, x)
  {
    if clearOk {
      SweepWithClear(s, readOk, scope);
    } else {
      SweepWithoutClear(s, readOk, scope);
    }
  }

  lemma {:induction false} EvictionWithoutClear(s: ChildState, capacity: nat)
    requires capacity >= 1
    ensures EvictToFit(s, capacity, false).snapshots == s.snapshots
    decreases |s.parked|
  {
    if |s.parked| >= capacity {
      var c := ClearSnapshots(s, false);
      EvictionWithoutClear(c.(parked := s.parked[1..], events := c.events + [SessionDropped(s.parked[0])]), capacity);
    }
  }

  lemma OnlySuffixRemains(xs: seq<Session>, cut: nat)
    requires Distinct(xs) && cut <= |xs|
    ensures forall i :: 0 <= i < cut ==> xs[i] !in xs[cut..]
    ensures forall x :: x in xs && x !in xs[cut..] ==> x in xs[..cut]
  {
    assert xs == xs[..cut] + xs[cut..];
  }

  /** Capacity eviction keeps every entry live exactly when it evicts nothing, its clear
      succeeds, or no evicted session has an entry. */
  lemma EvictionKeepsEntriesExactly(s: ChildState, capacity: nat, clearOk: bool, scope: Scope)
    requires capacity >= 1 && s.hostSession.None? && Distinct(s.parked) && EntriesAreLive(s, scope)
    ensures EntriesAreLive(EvictToFit(s, capacity, clearOk), scope) <==>
      clearOk || forall i :: 0 <= i <= |s.parked| - capacity ==> !HasEntry(s, s.parked[i])
  {
    var s' := EvictToFit(s, capacity, clearOk);
    EvictToFitHolds(s, capacity, clearOk);
    assert Held(s) == s.parked && Held(s') == s'.parked;
    if |s.parked| < capacity {
      assert s' == s;
    } else if clearOk {
      EvictionClears(s, capacity);
    } else {
      var cut := |s.parked| - |s'.parked|;
      EvictionWithoutClear(s, capacity);
      OnlySuffixRemains(s.parked, cut);
      DropWithoutClear(s, s', scope);
      forall i | 0 <= i < cut ensures s.parked[i] in Held(s) && s.parked[i] !in Held(s') {
      }
    }
  }
}
