/** When the process-global snapshot cache changes no reply, exactly
    (crates/lean-rs-worker-child/src/child.rs:1097-1116, 1179-1204, 1856-1952, 2588-2604).

    Dropping a session never makes an answer wrong, cleared or not: an entry is looked up by
    the key of the current session. Only importing a key that still has entries does. */
module SnapshotAgreement {
  import opened Prelude
  import opened SnapshotCacheKey
  import opened WorkerChildModel
  import opened PoolStructure
  import opened PoolReplies
  import opened QueryScope
  import opened SnapshotPinning

  /** What lies under the session's own keys is what the session itself would build. */
  ghost predicate OwnEntries(s: ChildState, scope: Scope, x: Session) {
    forall q :: q in scope.queries && QueryKey(scope.toolchain, x.key, q) in s.snapshots ==>
      s.snapshots[QueryKey(scope.toolchain, x.key, q)] == Snapshot(x.env, q)
  }

  ghost predicate AnswersAreOwn(s: ChildState, scope: Scope) {
    forall x :: x in Held(s) ==> OwnEntries(s, scope, x)
  }

  /** No snapshot is from an environment yet to be imported. */
  ghost predicate EntriesAreOld(s: ChildState) {
    forall k :: k in s.snapshots ==> s.snapshots[k].env < s.imports
  }

  ghost predicate AnswersOk(s: ChildState, scope: Scope) {
    AnswersAreOwn(s, scope) && EntriesAreOld(s) && HeldKeysInScope(s, scope)
  }

  // ----- losing sessions and entries is harmless -----

  ghost predicate Fewer(s: ChildState, s': ChildState) {
    && (forall x :: x in Held(s') ==> x in Held(s))
    && (forall k :: k in s'.snapshots ==> k in s.snapshots && s'.snapshots[k] == s.snapshots[k])
    && s'.imports == s.imports
  }

  lemma FewerKeepsAnswers(s: ChildState, s': ChildState, scope: Scope)
    requires Fewer(s, s') && AnswersOk(s, scope)
    ensures AnswersOk(s', scope)
  {
    forall x | x in Held(s') ensures OwnEntries(s', scope, x) {
      assert OwnEntries(s, scope, x);
    }
  }

  lemma FewerComposes(a: ChildState, b: ChildState, c: ChildState)
    requires Fewer(a, b) && Fewer(b, c)
    ensures Fewer(a, c)
  {
  }

  lemma SweepLoses(s: ChildState, readOk: bool, clearOk: bool)
    ensures Fewer(s, Sweep(s, readOk, clearOk))
  {
    SweepHolds(s, readOk, clearOk);
    FreshOnlyMembers(LiveEpoch(s, readOk), Held(s));
  }

  lemma {:induction false} EvictionLosesEntries(s: ChildState, capacity: nat, clearOk: bool)
    requires capacity >= 1
    ensures var s' := EvictToFit(s, capacity, clearOk);
            forall k :: k in s'.snapshots ==> k in s.snapshots && s'.snapshots[k] == s.snapshots[k]
    decreases |s.parked|
  {
    if |s.parked| >= capacity {
      var c := ClearSnapshots(s, clearOk);
      EvictionLosesEntries(c.(parked := s.parked[1..], events := c.events + [SessionDropped(s.parked[0])]), capacity,
                           clearOk);
    }
  }

  lemma EvictionLoses(s: ChildState, capacity: nat, clearOk: bool)
    requires capacity >= 1 && s.hostSession.None?
    ensures Fewer(s, EvictToFit(s, capacity, clearOk)) && EvictToFit(s, capacity, clearOk).hostSession.None?
  {
    var s' := EvictToFit(s, capacity, clearOk);
    EvictToFitHolds(s, capacity, clearOk);
    EvictionLosesEntries(s, capacity, clearOk);
    assert Held(s) == s.parked && Held(s') == s'.parked;
  }

  lemma AnchorLosesNothing(s: ChildState, key: HostSessionKey, inputs: OpenInputs)
    ensures Fewer(s, FindOrBuildAnchor(s, key, inputs).0)
    ensures FindOrBuildAnchor(s, key, inputs).0.hostSession == s.hostSession
  {
    assert Held(FindOrBuildAnchor(s, key, inputs).0) == Held(s);
  }

  lemma MakingRoomLoses(s: ChildState, capacity: nat, key: HostSessionKey, inputs: OpenInputs)
    requires capacity >= 1
    ensures var b := FindOrBuildAnchor(EvictToFit(Park(s), capacity, inputs.evictClear), key, inputs).0;
            Fewer(s, b) && b.hostSession.None?
  {
    var evicted := EvictToFit(Park(s), capacity, inputs.evictClear);
    ParkHolds(s);
    EvictionLoses(Park(s), capacity, inputs.evictClear);
    AnchorLosesNothing(evicted, key, inputs);
    FewerComposes(Park(s), evicted, FindOrBuildAnchor(evicted, key, inputs).0);
  }

  lemma SwapLoses(s: ChildState, i: nat)
    requires i < |s.parked|
    ensures Fewer(s, SwapIn(s, i))
  {
    SwapHolds(s, i);
    assert forall x :: x in Held(SwapIn(s, i)) ==> x in multiset(Held(SwapIn(s, i)));
    assert forall x :: x in multiset(Held(s)) ==> x in Held(s);
  }

  // ----- importing -----

  /** The cache still has an answer under the key of a session to be imported. */
  ghost predicate HasAnswer(s: ChildState, scope: Scope, key: HostSessionKey) {
    exists q :: q in scope.queries && QueryKey(scope.toolchain, key, q) in s.snapshots
  }

  /** The import finds leftovers of its key and nothing after it removes them: the sweep
      behind the import reads the epoch, and finds nothing stale or fails to clear. */
  ghost predicate Misleads(b: ChildState, scope: Scope, key: HostSessionKey, inputs: OpenInputs) {
    && HasAnswer(b, scope, key)
    && inputs.lastRead
    && (inputs.lastClear ==> AllAt(b.parked, inputs.registryAfterImport))
  }

  ghost predicate AllAt(sessions: seq<Session>, epoch: nat) {
    forall x :: x in sessions ==> x.epoch == epoch
  }

  /** A new environment answers under its key from its own entries exactly when there are none yet. */
  lemma InstallExactly(b: ChildState, scope: Scope, key: HostSessionKey, registry: nat)
    requires b.hostSession.None? && AnswersOk(b, scope) && key in scope.keys
    ensures AnswersAreOwn(Install(b, key, registry), scope) <==> !HasAnswer(b, scope, key)
    ensures !HasAnswer(b, scope, key) ==> AnswersOk(Install(b, key, registry), scope)
  {
    var session, s := Session(key, registry, b.imports), Install(b, key, registry);
    assert Held(s) == Held(b) + [session];
    if HasAnswer(b, scope, key) {
      var q :| q in scope.queries && QueryKey(scope.toolchain, key, q) in b.snapshots;
      assert !OwnEntries(s, scope, session);
    } else {
      forall x | x in Held(s) ensures OwnEntries(s, scope, x) {
        if x in Held(b) { assert OwnEntries(b, scope, x); }
      }
    }
  }

  lemma InstalledSweep(b: ChildState, key: HostSessionKey, inputs: OpenInputs)
    requires b.hostSession.None?
    ensures var installed := Install(b, key, inputs.registryAfterImport);
            var s := Sweep(installed, inputs.lastRead, inputs.lastClear);
            var session := Session(key, inputs.registryAfterImport, b.imports);
            && Held(installed) == b.parked + [session]
            && (!inputs.lastRead ==> Held(s) == [])
            && (inputs.lastRead ==> session in Held(s))
            && (inputs.lastRead && AllAt(b.parked, inputs.registryAfterImport) ==> s == installed)
            && (!inputs.lastClear ==> s.snapshots == b.snapshots)
            && (inputs.lastRead && inputs.lastClear && !AllAt(b.parked, inputs.registryAfterImport) ==> s.snapshots == map[])
  {
    var installed := Install(b, key, inputs.registryAfterImport);
    var session := Session(key, inputs.registryAfterImport, b.imports);
    var live := LiveEpoch(installed, inputs.lastRead);
    assert Held(installed) == b.parked + [session];
    SweepLeavesFresh(installed, inputs.lastRead, inputs.lastClear);
    SweepHolds(installed, inputs.lastRead, inputs.lastClear);
    FreshOnlyMembers(live, Held(installed));
    StaleMeansSome(live, Held(installed));
    if AllAt(b.parked, inputs.registryAfterImport) && inputs.lastRead {
      SweepOfFresh(installed, inputs.lastClear);
    }
  }

  lemma {:induction false} StaleMeansSome(live: Option<nat>, xs: seq<Session>)
    ensures StaleOnly(live, xs) != [] <==> exists x :: x in xs && IsStale(live, x)
  {
    if xs != [] {
      StaleMeansSome(live, xs[1..]);
      assert xs == [xs[0]] + xs[1..];
    }
  }

  lemma ImportAnswersExactly(b: ChildState, scope: Scope, key: HostSessionKey, inputs: OpenInputs)
    requires b.hostSession.None? && AnswersOk(b, scope) && key in scope.keys
    ensures var s := Sweep(Install(b, key, inputs.registryAfterImport), inputs.lastRead, inputs.lastClear);
            && (AnswersAreOwn(s, scope) <==> !Misleads(b, scope, key, inputs))
            && (Misleads(b, scope, key, inputs) ==>
                  !OwnEntries(s, scope, Session(key, inputs.registryAfterImport, b.imports)))
            && EntriesAreOld(s) && HeldKeysInScope(s, scope)
  {
    var installed := Install(b, key, inputs.registryAfterImport);
    var s := Sweep(installed, inputs.lastRead, inputs.lastClear);
    var session := Session(key, inputs.registryAfterImport, b.imports);
    InstalledSweep(b, key, inputs);
    InstallExactly(b, scope, key, inputs.registryAfterImport);
    SweepLoses(installed, inputs.lastRead, inputs.lastClear);
    assert Held(b) == b.parked;
    if Misleads(b, scope, key, inputs) {
      var q :| q in scope.queries && QueryKey(scope.toolchain, key, q) in b.snapshots;
      assert s.snapshots == b.snapshots;
      assert !OwnEntries(s, scope, session);
    } else if !HasAnswer(b, scope, key) {
      FewerKeepsAnswers(installed, s, scope);
    } else if inputs.lastRead {
      assert s.snapshots == map[];
    }
  }

  // ----- opening -----

  /** The state an open imports into, when it does import. */
  function ImportsInto(s: ChildState, capacity: nat, key: HostSessionKey, inputs: OpenInputs): Option<ChildState>
    requires capacity >= 1
  {
    var swept := Sweep(s, inputs.firstRead, inputs.firstClear);
    if swept.hostSession.Some? && swept.hostSession.value.key == key then None
    else if Position(swept.parked, key).Some? then None
    else
      var (b, anchored) := FindOrBuildAnchor(EvictToFit(Park(swept), capacity, inputs.evictClear), key, inputs);
      if anchored && inputs.imported then Some(b) else None
  }

  /** An open that does not import a key with leftovers. */
  ghost predicate CleanOpen(s: ChildState, capacity: nat, scope: Scope, key: HostSessionKey, inputs: OpenInputs)
    requires capacity >= 1
  {
    var b := ImportsInto(s, capacity, key, inputs);
    b.Some? ==> !Misleads(b.value, scope, key, inputs)
  }

  lemma OpenByParts(s: ChildState, capacity: nat, key: HostSessionKey, inputs: OpenInputs)
    requires capacity >= 1
    ensures var b, s' := ImportsInto(s, capacity, key, inputs), Open(s, capacity, key, inputs).0;
            if b.Some? then
              && Fewer(s, b.value) && b.value.hostSession.None?
              && s' == Sweep(Install(b.value, key, inputs.registryAfterImport), inputs.lastRead, inputs.lastClear)
            else Fewer(s, s')
  {
    var swept := Sweep(s, inputs.firstRead, inputs.firstClear);
    SweepLoses(s, inputs.firstRead, inputs.firstClear);
    if swept.hostSession.Some? && swept.hostSession.value.key == key {
    } else if Position(swept.parked, key).Some? {
      SwapLoses(swept, Position(swept.parked, key).value);
      FewerComposes(s, swept, Open(s, capacity, key, inputs).0);
    } else {
      var b := FindOrBuildAnchor(EvictToFit(Park(swept), capacity, inputs.evictClear), key, inputs).0;
      MakingRoomLoses(swept, capacity, key, inputs);
      FewerComposes(s, swept, b);
      assert Held(b.(registry := inputs.registryAfterImport)) == Held(b);
    }
  }

  /** An open keeps every held session answering from its own entries if and only if it does
      not import a key that still has entries. */
  lemma OpenKeepsAnswersExactly(s: ChildState, capacity: nat, scope: Scope, key: HostSessionKey,
                                inputs: OpenInputs)
    requires capacity >= 1 && AnswersOk(s, scope) && key in scope.keys
    ensures var s' := Open(s, capacity, key, inputs).0;
            && (AnswersAreOwn(s', scope) <==> CleanOpen(s, capacity, scope, key, inputs))
            && EntriesAreOld(s') && HeldKeysInScope(s', scope)
  {
    var b, s' := ImportsInto(s, capacity, key, inputs), Open(s, capacity, key, inputs).0;
    OpenByParts(s, capacity, key, inputs);
    if b.Some? {
      FewerKeepsAnswers(s, b.value, scope);
      ImportAnswersExactly(b.value, scope, key, inputs);
    } else {
      FewerKeepsAnswers(s, s', scope);
    }
  }

  // ----- answering -----

  lemma LookUpAnswers(s: ChildState, cacheKey: Text, built: Snapshot, inputs: QueryInputs)
    requires cacheKey in s.snapshots ==> s.snapshots[cacheKey] == built
    ensures LookUp(s, cacheKey, built, inputs).1.Answer? ==> LookUp(s, cacheKey, built, inputs).1 == Answer(built)
  {
  }

  lemma AnswerIsRecomputation(s: ChildState, scope: Scope, query: ModuleQuery, inputs: QueryInputs)
    requires s.hostSession.Some? && query in scope.queries && OwnEntries(s, scope, s.hostSession.value)
    ensures var session := s.hostSession.value;
            var reply := Query(s, QueryKey(scope.toolchain, session.key, query), session, query, inputs).1;
            reply.Answer? ==> reply.snapshot == Snapshot(session.env, query)
  {
    var session := s.hostSession.value;
    var cacheKey := QueryKey(scope.toolchain, session.key, query);
    LookUpAnswers(s, cacheKey, Snapshot(session.env, query), inputs);
    LookUpAnswers(ClearSnapshots(s, true), cacheKey, Snapshot(session.env, query), inputs);
  }

  /** Whatever happens during the query, an answer is the current environment's own snapshot. */
  ghost predicate AnsweredFromCurrent(s: ChildState, capacity: nat, scope: Scope, query: ModuleQuery,
                                      inputs: QueryInputs)
    requires capacity >= 1
  {
    var reply := Serve(s, capacity, scope.toolchain, ProcessModuleQueryBatch(query, inputs)).1;
    reply.Answer? ==> s.hostSession.Some? && reply.snapshot == Snapshot(s.hostSession.value.env, query)
  }

  ghost predicate EveryAnswerIsOwn(s: ChildState, capacity: nat, scope: Scope)
    requires capacity >= 1
  {
    forall query, inputs :: query in scope.queries ==> AnsweredFromCurrent(s, capacity, scope, query, inputs)
  }

  lemma RegisterKeepsEntries(s: ChildState, registered: nat)
    ensures Held(Register(s, registered)) == Held(s)
  {
  }

  lemma OwnEntriesAnswer(s: ChildState, capacity: nat, scope: Scope, query: ModuleQuery, inputs: QueryInputs)
    requires capacity >= 1 && query in scope.queries
    requires s.hostSession.Some? ==> OwnEntries(s, scope, s.hostSession.value)
    ensures AnsweredFromCurrent(s, capacity, scope, query, inputs)
  {
    if s.hostSession.Some? {
      assert OwnEntries(Register(s, inputs.registered), scope, s.hostSession.value);
      AnswerIsRecomputation(Register(s, inputs.registered), scope, query, inputs);
    }
  }

  /** A query that hits and is left undisturbed. */
  const QUIET := QueryInputs(0, None, false, {}, Supported, {}, 0, "")

  lemma ForeignEntryAnswers(s: ChildState, capacity: nat, scope: Scope, query: ModuleQuery)
    requires capacity >= 1 && s.hostSession.Some?
    requires QueryKey(scope.toolchain, s.hostSession.value.key, query) in s.snapshots
    ensures Serve(s, capacity, scope.toolchain, ProcessModuleQueryBatch(query, QUIET)).1
         == Answer(s.snapshots[QueryKey(scope.toolchain, s.hostSession.value.key, query)])
  {
    assert s.snapshots - {} == s.snapshots;
  }

  /** Every query is answered by the current environment if and only if what lies under its
      keys is its own. */
  lemma EveryAnswerIsOwnExactly(s: ChildState, capacity: nat, scope: Scope)
    requires capacity >= 1 && s.hostSession.Some?
    ensures EveryAnswerIsOwn(s, capacity, scope) <==> OwnEntries(s, scope, s.hostSession.value)
  {
    var x := s.hostSession.value;
    if OwnEntries(s, scope, x) {
      forall query, inputs | query in scope.queries ensures AnsweredFromCurrent(s, capacity, scope, query, inputs) {
        OwnEntriesAnswer(s, capacity, scope, query, inputs);
      }
    } else {
      var q :| q in scope.queries && QueryKey(scope.toolchain, x.key, q) in s.snapshots
               && s.snapshots[QueryKey(scope.toolchain, x.key, q)] != Snapshot(x.env, q);
      ForeignEntryAnswers(s, capacity, scope, q);
      assert !AnsweredFromCurrent(s, capacity, scope, q, QUIET);
    }
  }

  /** After an open every query is answered by the environment that was asked for, if and only
      if the open did not import a key that still had entries. */
  lemma OpenAnswersExactly(s: ChildState, capacity: nat, scope: Scope, key: HostSessionKey, inputs: OpenInputs)
    requires capacity >= 1 && AnswersOk(s, scope) && key in scope.keys
    ensures EveryAnswerIsOwn(Open(s, capacity, key, inputs).0, capacity, scope)
            <==> CleanOpen(s, capacity, scope, key, inputs)
  {
    var b, s' := ImportsInto(s, capacity, key, inputs), Open(s, capacity, key, inputs).0;
    OpenByParts(s, capacity, key, inputs);
    OpenKeepsAnswersExactly(s, capacity, scope, key, inputs);
    if CleanOpen(s, capacity, scope, key, inputs) {
      if s'.hostSession.Some? {
        assert s'.hostSession.value == Held(s')[|s'.parked|];
        EveryAnswerIsOwnExactly(s', capacity, scope);
      }
    } else {
      FewerKeepsAnswers(s, b.value, scope);
      ImportAnswersExactly(b.value, scope, key, inputs);
      NewSessionIsCurrent(b.value, key, inputs);
      EveryAnswerIsOwnExactly(s', capacity, scope);
    }
  }

  lemma NewSessionIsCurrent(b: ChildState, key: HostSessionKey, inputs: OpenInputs)
    requires b.hostSession.None? && inputs.lastRead
    ensures Sweep(Install(b, key, inputs.registryAfterImport), inputs.lastRead, inputs.lastClear).hostSession
         == Some(Session(key, inputs.registryAfterImport, b.imports))
  {
  }

  // ----- runs -----

  lemma StoreKeepsAnswers(s: ChildState, capacity: nat, scope: Scope, session: Session, query: ModuleQuery)
    requires AnswersOk(s, scope) && Separated(scope, capacity) && query in scope.queries
    requires HeldOk(s, capacity) && session in Held(s)
    ensures AnswersOk(s.(snapshots := s.snapshots[QueryKey(scope.toolchain, session.key, query) := Snapshot(session.env, query)]),
                      scope)
  {
    var cacheKey, built := QueryKey(scope.toolchain, session.key, query), Snapshot(session.env, query);
    var s' := s.(snapshots := s.snapshots[cacheKey := built]);
    assert Held(s') == Held(s);
    forall x | x in Held(s') ensures OwnEntries(s', scope, x) {
      assert OwnEntries(s, scope, x);
      forall q | q in scope.queries && QueryKey(scope.toolchain, x.key, q) in s'.snapshots
        ensures s'.snapshots[QueryKey(scope.toolchain, x.key, q)] == Snapshot(x.env, q)
      {
        if QueryKey(scope.toolchain, x.key, q) == cacheKey {
          HeldTogether(s, capacity, x, session);
          KeyNamesSession(scope, capacity, x.key, q, session.key, query);
        }
      }
    }
  }

  lemma LookUpKeepsAnswers(s: ChildState, capacity: nat, scope: Scope, session: Session, query: ModuleQuery,
                           inputs: QueryInputs)
    requires AnswersOk(s, scope) && Separated(scope, capacity) && query in scope.queries
    requires HeldOk(s, capacity) && session in Held(s)
    ensures AnswersOk(LookUp(s, QueryKey(scope.toolchain, session.key, query), Snapshot(session.env, query), inputs).0, scope)
  {
    var cacheKey, built := QueryKey(scope.toolchain, session.key, query), Snapshot(session.env, query);
    var s' := LookUp(s, cacheKey, built, inputs).0;
    var present := s.(snapshots := s.snapshots - inputs.lostBefore);
    assert Held(present) == Held(s) && Held(s') == Held(s);
    FewerKeepsAnswers(s, present, scope);
    StoreKeepsAnswers(present, capacity, scope, session, query);
    var stored := present.(snapshots := present.snapshots[cacheKey := built]);
    assert Held(stored) == Held(s);
    if inputs.lookup.Supported? && cacheKey !in present.snapshots {
      FewerKeepsAnswers(stored, s', scope);
    } else {
      FewerKeepsAnswers(present, s', scope);
    }
  }

  lemma QueryKeepsAnswers(s: ChildState, capacity: nat, scope: Scope, session: Session, query: ModuleQuery,
                          inputs: QueryInputs)
    requires AnswersOk(s, scope) && Separated(scope, capacity) && query in scope.queries
    requires HeldOk(s, capacity) && session in Held(s)
    ensures AnswersOk(Query(s, QueryKey(scope.toolchain, session.key, query), session, query, inputs).0, scope)
  {
    ClearLoses(s, true);
    ClearLoses(s, false);
    FewerKeepsAnswers(s, ClearSnapshots(s, true), scope);
    FewerKeepsAnswers(s, ClearSnapshots(s, false), scope);
    LookUpKeepsAnswers(s, capacity, scope, session, query, inputs);
    LookUpKeepsAnswers(ClearSnapshots(s, true), capacity, scope, session, query, inputs);
  }

  lemma ClearLoses(s: ChildState, ok: bool)
    ensures Held(ClearSnapshots(s, ok)) == Held(s) && Fewer(s, ClearSnapshots(s, ok))
  {
  }

  ghost predicate CleanRequest(s: ChildState, capacity: nat, scope: Scope, request: Request)
    requires capacity >= 1
  {
    request.OpenHostSession? ==> CleanOpen(s, capacity, scope, request.key, request.open)
  }

  /** No open of the run imports a key that still has entries. */
  ghost predicate CleanRun(registry: nat, capacity: nat, scope: Scope, requests: seq<Request>)
    requires capacity >= 1
  {
    if requests == [] then true
    else
      var n := |requests| - 1;
      && CleanRun(registry, capacity, scope, requests[..n])
      && CleanRequest(Run(registry, capacity, scope.toolchain, requests[..n]), capacity, scope, requests[n])
  }

  lemma ServeKeepsAnswersExactly(s: ChildState, capacity: nat, scope: Scope, request: Request)
    requires capacity >= 1 && PoolInvariant(s, capacity) && AnswersOk(s, scope)
    requires Separated(scope, capacity) && InScope(scope, request)
    ensures var s' := Serve(s, capacity, scope.toolchain, request).0;
            && (AnswersAreOwn(s', scope) <==> CleanRequest(s, capacity, scope, request))
            && EntriesAreOld(s') && HeldKeysInScope(s', scope)
  {
    var s' := Serve(s, capacity, scope.toolchain, request).0;
    if request.OpenHostSession? {
      OpenKeepsAnswersExactly(s, capacity, scope, request.key, request.open);
    } else if s.hostSession.Some? {
      var moved := Register(s, Registered(request));
      RegisterKeepsEntries(s, Registered(request));
      FewerKeepsAnswers(s, moved, scope);
      OtherKeepsAnswers(s, moved, capacity, scope, request);
    }
  }

  lemma OtherKeepsAnswers(s: ChildState, moved: ChildState, capacity: nat, scope: Scope, request: Request)
    requires capacity >= 1 && !request.OpenHostSession? && s.hostSession.Some?
    requires moved == Register(s, Registered(request))
    requires HeldOk(moved, capacity) && AnswersOk(moved, scope)
    requires Separated(scope, capacity) && InScope(scope, request)
    ensures AnswersOk(Serve(s, capacity, scope.toolchain, request).0, scope)
  {
    assert s.hostSession.value == Held(moved)[|moved.parked|];
    match request
    case ProcessModuleQueryBatch(query, inputs) =>
      QueryKeepsAnswers(moved, capacity, scope, s.hostSession.value, query, inputs);
    case ClearModuleSnapshotCache(ok, _, _) =>
      ClearLoses(moved, ok);
      FewerKeepsAnswers(moved, ClearSnapshots(moved, ok), scope);
    case Health => FewerKeepsAnswers(moved, s, scope);
    case _ =>
  }

  lemma {:induction false} CleanRunAnswers(registry: nat, capacity: nat, scope: Scope, requests: seq<Request>)
    requires capacity >= 1 && Separated(scope, capacity) && RunOver(scope, requests)
    requires CleanRun(registry, capacity, scope, requests)
    ensures AnswersOk(Run(registry, capacity, scope.toolchain, requests), scope)
  {
    if requests == [] {
      assert Held(Initial(registry)) == [];
    } else {
      var n := |requests| - 1;
      CleanRunAnswers(registry, capacity, scope, requests[..n]);
      RunKeepsPool(registry, capacity, scope.toolchain, requests[..n]);
      ServeKeepsAnswersExactly(Run(registry, capacity, scope.toolchain, requests[..n]), capacity, scope, requests[n]);
    }
  }

  lemma {:induction false} CleanFront(registry: nat, capacity: nat, scope: Scope, requests: seq<Request>, n: nat)
    requires capacity >= 1 && n <= |requests| && CleanRun(registry, capacity, scope, requests)
    ensures CleanRun(registry, capacity, scope, requests[..n])
    decreases |requests|
  {
    if n == |requests| {
      assert requests[..n] == requests;
    } else {
      var front := requests[..|requests| - 1];
      CleanFront(registry, capacity, scope, front, n);
      assert front[..n] == requests[..n];
    }
  }

  /** In every run every held session answers from its own entries at every point if and only
      if no open imports a key that still has entries. */
  lemma RunAnswersExactly(registry: nat, capacity: nat, scope: Scope, requests: seq<Request>)
    requires capacity >= 1 && Separated(scope, capacity) && RunOver(scope, requests)
    ensures CleanRun(registry, capacity, scope, requests) <==>
            forall i :: 0 <= i <= |requests| ==>
              AnswersAreOwn(Run(registry, capacity, scope.toolchain, requests[..i]), scope)
  {
    if CleanRun(registry, capacity, scope, requests) {
      forall i | 0 <= i <= |requests| ensures AnswersAreOwn(Run(registry, capacity, scope.toolchain, requests[..i]), scope) {
        CleanFront(registry, capacity, scope, requests, i);
        CleanRunAnswers(registry, capacity, scope, requests[..i]);
      }
    } else {
      var _ := MisleadingRun(registry, capacity, scope, requests);
    }
  }

  lemma {:induction false} MisleadingRun(registry: nat, capacity: nat, scope: Scope, requests: seq<Request>)
    returns (i: nat)
    requires capacity >= 1 && Separated(scope, capacity) && RunOver(scope, requests)
    requires !CleanRun(registry, capacity, scope, requests)
    ensures i <= |requests| && !AnswersAreOwn(Run(registry, capacity, scope.toolchain, requests[..i]), scope)
  {
    i := |requests|;
    var front := requests[..|requests| - 1];
    assert requests[..i] == requests;
    if CleanRun(registry, capacity, scope, front) {
      CleanRunAnswers(registry, capacity, scope, front);
      RunKeepsPool(registry, capacity, scope.toolchain, front);
      ServeKeepsAnswersExactly(Run(registry, capacity, scope.toolchain, front), capacity, scope, requests[|requests| - 1]);
    } else {
      i := MisleadingRun(registry, capacity, scope, front);
      assert front[..i] == requests[..i];
    }
  }

  /** The answer to request `i`, if it gets one, is the snapshot the environment current at that
      moment would build. */
  ghost predicate AnsweredOwn(registry: nat, capacity: nat, toolchain: Toolchain, requests: seq<Request>, i: nat)
    requires capacity >= 1 && i < |requests| && requests[i].ProcessModuleQueryBatch?
  {
    var s := Run(registry, capacity, toolchain, requests[..i]);
    var reply := ReplyAt(registry, capacity, toolchain, requests, i);
    reply.Answer? ==> s.hostSession.Some? && reply.snapshot == Snapshot(s.hostSession.value.env, requests[i].query)
  }

  /** In every run that imports no key with leftovers, whether clears succeed or not, across
      opens, swaps, evictions, sweeps, guard clears and entries lost by Lean, a query that is
      answered is answered with the snapshot the current environment itself would build. */
  lemma AnswersComeFromTheCurrentSession(registry: nat, capacity: nat, scope: Scope, requests: seq<Request>, i: nat)
    requires capacity >= 1 && Separated(scope, capacity) && RunOver(scope, requests)
    requires CleanRun(registry, capacity, scope, requests)
    requires i < |requests| && requests[i].ProcessModuleQueryBatch?
    ensures AnsweredOwn(registry, capacity, scope.toolchain, requests, i)
  {
    var s := Run(registry, capacity, scope.toolchain, requests[..i]);
    CleanFront(registry, capacity, scope, requests, i);
    CleanRunAnswers(registry, capacity, scope, requests[..i]);
    if s.hostSession.Some? { assert s.hostSession.value == Held(s)[|s.parked|]; }
    OwnEntriesAnswer(s, capacity, scope, requests[i].query, requests[i].inputs);
  }

  // ----- clears that work are enough -----

  lemma HeldKeyHasNoLeftovers(b: ChildState, capacity: nat, scope: Scope, key: HostSessionKey)
    requires CacheOk(b, scope) && Separated(scope, capacity) && key in scope.keys
    requires b.hostSession.None? && |b.parked| < capacity
    requires forall x :: x in Held(b) ==> x.key != key
    ensures !HasAnswer(b, scope, key)
  {
    HeldWhenNoneIsCurrent(b);
    forall k, q | k in b.snapshots && q in scope.queries ensures k != QueryKey(scope.toolchain, key, q) {
      var x :| x in Held(b) && BuiltBy(x, scope, k, b.snapshots[k]);
    }
  }

  lemma RoomKeepsCache(s: ChildState, capacity: nat, key: HostSessionKey, inputs: OpenInputs, scope: Scope)
    requires capacity >= 1 && CacheOk(s, scope) && inputs.evictClear
    ensures var b := FindOrBuildAnchor(EvictToFit(Park(s), capacity, inputs.evictClear), key, inputs).0;
            CacheOk(b, scope) && |b.parked| < capacity
  {
    ParkHolds(s);
    EntriesFrame(s, Park(s), scope);
    EvictKeepsCache(Park(s), capacity, scope);
    EvictToFitHolds(Park(s), capacity, true);
    AnchorsAreOutsideTheCache(EvictToFit(Park(s), capacity, true), key, inputs, scope);
  }

  lemma OpenWithClearsIsClean(s: ChildState, capacity: nat, scope: Scope, key: HostSessionKey, inputs: OpenInputs)
    requires capacity >= 1 && CacheOk(s, scope) && Separated(scope, capacity) && key in scope.keys
    requires inputs.firstClear && inputs.evictClear
    ensures CleanOpen(s, capacity, scope, key, inputs)
  {
    var b := ImportsInto(s, capacity, key, inputs);
    var swept := Sweep(s, inputs.firstRead, inputs.firstClear);
    if b.Some? {
      SweepKeepsCache(s, inputs.firstRead, scope);
      RoomKeepsCache(swept, capacity, key, inputs, scope);
      MakingRoomLoses(swept, capacity, key, inputs);
      assert forall x :: x in Held(swept) ==> x.key != key;
      HeldKeyHasNoLeftovers(b.value, capacity, scope, key);
    }
  }

  /** With clears that work no run imports a key with leftovers, so the theorems about clean
      runs hold of it. */
  lemma {:induction false} RunsWithClearsAreClean(registry: nat, capacity: nat, scope: Scope,
                                                  requests: seq<Request>)
    requires capacity >= 1 && Separated(scope, capacity) && OrderlyRun(scope, requests)
    ensures CleanRun(registry, capacity, scope, requests)
  {
    if requests != [] {
      var n := |requests| - 1;
      RunsWithClearsAreClean(registry, capacity, scope, requests[..n]);
      RunKeepsCache(registry, capacity, scope, requests[..n]);
      if requests[n].OpenHostSession? {
        OpenWithClearsIsClean(Run(registry, capacity, scope.toolchain, requests[..n]), capacity, scope, requests[n].key,
                              requests[n].open);
      }
    }
  }
}
