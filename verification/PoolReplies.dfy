/** What each reply to an open means, and why no command is ever dispatched to an
    environment that predates an extension registration
    (crates/lean-rs-worker-child/src/child.rs:384-714, 1051-1204). */
module PoolReplies {
  import opened Prelude
  import opened SnapshotCacheKey
  import opened WorkerChildModel
  import opened PoolStructure

  ghost predicate CurrentIsFresh(s: ChildState) {
    s.hostSession.Some? ==> s.hostSession.value.epoch == s.registry
  }

  ghost predicate AllFresh(s: ChildState) {
    forall x :: x in Held(s) ==> x.epoch == s.registry
  }

  ghost predicate IsHeld(s: ChildState, key: HostSessionKey) {
    exists i :: 0 <= i < |Held(s)| && Held(s)[i].key == key
  }

  lemma SweepLeavesFresh(s: ChildState, readOk: bool, clearOk: bool)
    ensures AllFresh(Sweep(s, readOk, clearOk))
    ensures !readOk ==> Held(Sweep(s, readOk, clearOk)) == []
  {
    SweepHolds(s, readOk, clearOk);
    FreshOnlyMembers(LiveEpoch(s, readOk), Held(s));
    FreshOnlyOfNone(Held(s));
  }

  lemma {:induction false} FreshOnlyOfNone(xs: seq<Session>)
    ensures FreshOnly(None, xs) == []
  {
    if xs != [] { FreshOnlyOfNone(xs[1..]); }
  }

  /** A sweep that reads the live epoch while nothing is stale changes nothing. */
  lemma SweepOfFresh(s: ChildState, clearOk: bool)
    requires AllFresh(s)
    ensures Sweep(s, true, clearOk) == s
  {
    NothingStale(Some(s.registry), Held(s));
  }

  lemma {:induction false} NothingStale(live: Option<nat>, xs: seq<Session>)
    requires forall x :: x in xs ==> !IsStale(live, x)
    ensures StaleOnly(live, xs) == []
  {
    if xs != [] {
      assert xs[0] in xs;
      NothingStale(live, xs[1..]);
    }
  }

  /** Importing ends in a sweep: on success everything held is fresh, and the new session is
      current exactly when the last epoch read succeeded; otherwise nothing at all is held. */
  lemma ImportReply(s: ChildState, key: HostSessionKey, inputs: OpenInputs)
    requires s.hostSession.None?
    ensures var (s', reply) := Import(s, key, inputs);
            if !inputs.imported then reply == Error(inputs.errorCode) && s' == s.(registry := inputs.registryAfterImport)
            else
              && reply == HostSessionOpened(s.imports) && s'.imports == s.imports + 1 && AllFresh(s')
              && s'.registry == inputs.registryAfterImport
              && (inputs.lastRead ==> s'.hostSession == Some(Session(key, inputs.registryAfterImport, s.imports)))
              && (!inputs.lastRead ==> Held(s') == [])
  {
    if inputs.imported {
      SweepLeavesFresh(Install(s, key, inputs.registryAfterImport), inputs.lastRead, inputs.lastClear);
    }
  }

  /** Membership, as the code tests it: the current session first, then a scan of the parked. */
  lemma IsHeldByParts(s: ChildState, key: HostSessionKey)
    ensures IsHeld(s, key) <==>
      (s.hostSession.Some? && s.hostSession.value.key == key) || Position(s.parked, key).Some?
  {
    if s.hostSession.Some? { assert Held(s)[|s.parked|] == s.hostSession.value; }
    assert forall i :: 0 <= i < |s.parked| ==> Held(s)[i] == s.parked[i];
  }

  lemma ReuseAfterSweep(s: ChildState, capacity: nat, key: HostSessionKey, inputs: OpenInputs)
    requires capacity >= 1 && IsHeld(s, key)
    ensures var (s', reply) := OpenSwept(s, capacity, key, inputs);
            && reply.HostSessionReused?
            && s'.hostSession.Some? && s'.hostSession.value.key == key && s'.hostSession.value in Held(s)
            && reply.importStats == s'.hostSession.value.env
            && s'.imports == s.imports && s'.registry == s.registry
            && multiset(Held(s')) == multiset(Held(s))
  {
    IsHeldByParts(s, key);
    if !(s.hostSession.Some? && s.hostSession.value.key == key) {
      var i := Position(s.parked, key).value;
      assert Held(s)[i] == s.parked[i];
      SwapHolds(s, i);
    }
  }

  lemma MissAfterSweep(s: ChildState, capacity: nat, key: HostSessionKey, inputs: OpenInputs)
    requires capacity >= 1 && !IsHeld(s, key)
    ensures var (s', reply) := OpenSwept(s, capacity, key, inputs);
            var n := |Held(s)|;
            && (reply.HostSessionOpened? <==>
                  (HostAnchor(key.projectRoot, key.mode) in s.anchors || inputs.anchorBuilt) && inputs.imported)
            && (reply.HostSessionOpened? ==>
                  && reply.importStats == s.imports && s'.imports == s.imports + 1 && AllFresh(s')
                  && (inputs.lastRead ==> s'.hostSession == Some(Session(key, s'.registry, s.imports)))
                  && (!inputs.lastRead ==> Held(s') == []))
            && (!reply.HostSessionOpened? ==>
                  && reply == Error(inputs.errorCode) && s'.imports == s.imports && s'.hostSession.None?
                  && s'.parked == Held(s)[n - Min(n, capacity - 1)..])
  {
    IsHeldByParts(s, key);
    EvictToFitHolds(Park(s), capacity, inputs.evictClear);
    var evicted := EvictToFit(Park(s), capacity, inputs.evictClear);
    ImportReply(FindOrBuildAnchor(evicted, key, inputs).0, key, inputs);
  }

  /** An open reuses exactly when a session with the requested key survives the first sweep,
      and then serves that very session without importing or losing any other. */
  lemma ReuseExactly(s: ChildState, capacity: nat, key: HostSessionKey, inputs: OpenInputs)
    requires capacity >= 1
    ensures var swept := Sweep(s, inputs.firstRead, inputs.firstClear);
            var (s', reply) := Open(s, capacity, key, inputs);
            && (reply.HostSessionReused? <==> IsHeld(swept, key))
            && (reply.HostSessionReused? ==>
                  && s'.hostSession.Some? && s'.hostSession.value.key == key
                  && s'.hostSession.value in Held(swept)
                  && reply.importStats == s'.hostSession.value.env
                  && s'.imports == s.imports && s'.registry == s.registry
                  && multiset(Held(s')) == multiset(Held(swept)))
  {
    var swept := Sweep(s, inputs.firstRead, inputs.firstClear);
    SweepHolds(s, inputs.firstRead, inputs.firstClear);
    if IsHeld(swept, key) {
      ReuseAfterSweep(swept, capacity, key, inputs);
    } else {
      MissAfterSweep(swept, capacity, key, inputs);
    }
  }

  /** A miss imports exactly when the anchor is there or can be built and Lean's import
      succeeds; the new session is then current exactly when the last epoch read succeeds,
      and if it fails nothing is held although `HostSessionOpened` is replied. Otherwise the
      child has no current session but keeps the most recent `capacity - 1` of those it held. */
  lemma MissExactly(s: ChildState, capacity: nat, key: HostSessionKey, inputs: OpenInputs)
    requires capacity >= 1 && !IsHeld(Sweep(s, inputs.firstRead, inputs.firstClear), key)
    ensures var swept := Sweep(s, inputs.firstRead, inputs.firstClear);
            var (s', reply) := Open(s, capacity, key, inputs);
            var n := |Held(swept)|;
            && (reply.HostSessionOpened? <==>
                  (HostAnchor(key.projectRoot, key.mode) in s.anchors || inputs.anchorBuilt) && inputs.imported)
            && (reply.HostSessionOpened? ==>
                  && reply.importStats == s.imports && s'.imports == s.imports + 1 && AllFresh(s')
                  && (inputs.lastRead ==> s'.hostSession == Some(Session(key, s'.registry, s.imports)))
                  && (!inputs.lastRead ==> Held(s') == []))
            && (!reply.HostSessionOpened? ==>
                  && reply == Error(inputs.errorCode) && s'.imports == s.imports && s'.hostSession.None?
                  && s'.parked == Held(swept)[n - Min(n, capacity - 1)..])
  {
    SweepHolds(s, inputs.firstRead, inputs.firstClear);
    MissAfterSweep(Sweep(s, inputs.firstRead, inputs.firstClear), capacity, key, inputs);
  }

  lemma RegistryAfterMiss(s: ChildState, capacity: nat, key: HostSessionKey, inputs: OpenInputs)
    requires capacity >= 1 && !IsHeld(s, key)
    ensures OpenSwept(s, capacity, key, inputs).0.registry
         == if HostAnchor(key.projectRoot, key.mode) in s.anchors || inputs.anchorBuilt then inputs.registryAfterImport
            else inputs.registryAfterAnchor
  {
    IsHeldByParts(s, key);
    EvictToFitHolds(Park(s), capacity, inputs.evictClear);
    ImportReply(FindOrBuildAnchor(EvictToFit(Park(s), capacity, inputs.evictClear), key, inputs).0, key, inputs);
  }

  /** Where the registry stands after an open: a reuse leaves it, and otherwise the last thing
      Lean was asked for decides, be it the anchor or the import, failed or not. */
  lemma RegistryAfterOpen(s: ChildState, capacity: nat, key: HostSessionKey, inputs: OpenInputs)
    requires capacity >= 1
    ensures Open(s, capacity, key, inputs).0.registry
         == if IsHeld(Sweep(s, inputs.firstRead, inputs.firstClear), key) then s.registry
            else if HostAnchor(key.projectRoot, key.mode) in s.anchors || inputs.anchorBuilt then inputs.registryAfterImport
            else inputs.registryAfterAnchor
  {
    var swept := Sweep(s, inputs.firstRead, inputs.firstClear);
    SweepHolds(s, inputs.firstRead, inputs.firstClear);
    if IsHeld(swept, key) {
      ReuseExactly(s, capacity, key, inputs);
    } else {
      RegistryAfterMiss(swept, capacity, key, inputs);
    }
  }

  /** After any open, successful or not, the session left current carries the live epoch;
      after a successful one every held session does. */
  lemma OpenLeavesFresh(s: ChildState, capacity: nat, key: HostSessionKey, inputs: OpenInputs)
    requires capacity >= 1
    ensures var (s', reply) := Open(s, capacity, key, inputs);
            CurrentIsFresh(s') && (!reply.Error? ==> AllFresh(s'))
  {
    var swept := Sweep(s, inputs.firstRead, inputs.firstClear);
    SweepLeavesFresh(s, inputs.firstRead, inputs.firstClear);
    SweepHolds(s, inputs.firstRead, inputs.firstClear);
    ReuseExactly(s, capacity, key, inputs);
    var (s', reply) := Open(s, capacity, key, inputs);
    if reply.HostSessionReused? {
      forall x | x in Held(s') ensures x.epoch == s'.registry {
        assert x in multiset(Held(s'));
      }
    } else {
      MissExactly(s, capacity, key, inputs);
    }
    if s'.hostSession.Some? { assert s'.hostSession.value in Held(s'); }
  }

  /** Registrations a request makes outside an open, if it is dispatched to a session. */
  function Registered(request: Request): nat {
    match request
    case Health => 0
    case OpenHostSession(_, _) => 0
    case ProcessModuleQueryBatch(_, inputs) => inputs.registered
    case ClearModuleSnapshotCache(_, registered, _) => registered
    case HostCommand(_, registered, _) => registered
  }

  /** Registrations since the last open of a run. */
  function RegisteredSinceOpen(requests: seq<Request>): nat {
    if requests == [] || requests[|requests| - 1].OpenHostSession? then 0
    else RegisteredSinceOpen(requests[..|requests| - 1]) + Registered(requests[|requests| - 1])
  }

  ghost predicate Behind(s: ChildState, registered: nat) {
    s.hostSession.Some? ==> s.hostSession.value.epoch + registered == s.registry
  }

  lemma ServeMovesRegistry(s: ChildState, capacity: nat, toolchain: Toolchain, request: Request)
    requires capacity >= 1 && !request.OpenHostSession?
    ensures var s' := Serve(s, capacity, toolchain, request).0;
            && s'.hostSession == s.hostSession
            && s'.registry == s.registry + if s.hostSession.Some? then Registered(request) else 0
  {
  }

  /** At every request of every run, whichever builds, imports and epoch reads failed, the
      current session is behind the registry by exactly the registrations that requests other
      than an open made since the last open. */
  lemma {:induction false} CurrentIsBehindByRegistrations(registry: nat, capacity: nat, toolchain: Toolchain,
                                                          requests: seq<Request>)
    requires capacity >= 1
    ensures Behind(Run(registry, capacity, toolchain, requests), RegisteredSinceOpen(requests))
  {
    if requests != [] {
      var n := |requests| - 1;
      var s := Run(registry, capacity, toolchain, requests[..n]);
      CurrentIsBehindByRegistrations(registry, capacity, toolchain, requests[..n]);
      if requests[n].OpenHostSession? {
        OpenLeavesFresh(s, capacity, requests[n].key, requests[n].open);
      } else {
        ServeMovesRegistry(s, capacity, toolchain, requests[n]);
      }
    }
  }

  /** A present current session has the live epoch if and only if no request other than an
      open has registered anything since the last open. */
  lemma NoRunServesAStaleSession(registry: nat, capacity: nat, toolchain: Toolchain, requests: seq<Request>)
    requires capacity >= 1 && Run(registry, capacity, toolchain, requests).hostSession.Some?
    ensures CurrentIsFresh(Run(registry, capacity, toolchain, requests)) <==> RegisteredSinceOpen(requests) == 0
  {
    CurrentIsBehindByRegistrations(registry, capacity, toolchain, requests);
  }

  lemma {:induction false} NothingRegistered(requests: seq<Request>)
    requires forall i :: 0 <= i < |requests| ==> Registered(requests[i]) == 0
    ensures RegisteredSinceOpen(requests) == 0
  {
    if requests != [] { NothingRegistered(requests[..|requests| - 1]); }
  }

  /** The case the comments assume, that only opens register: no run has a stale current
      session. */
  lemma OnlyOpensRegister(registry: nat, capacity: nat, toolchain: Toolchain, requests: seq<Request>)
    requires capacity >= 1 && forall i :: 0 <= i < |requests| ==> Registered(requests[i]) == 0
    ensures CurrentIsFresh(Run(registry, capacity, toolchain, requests))
  {
    CurrentIsBehindByRegistrations(registry, capacity, toolchain, requests);
    NothingRegistered(requests);
  }

  lemma DispatchNeedsSession(s: ChildState, capacity: nat, toolchain: Toolchain, request: Request)
    requires capacity >= 1 && !request.Health? && !request.OpenHostSession?
    ensures var reply := Serve(s, capacity, toolchain, request).1;
            && (s.hostSession.None? ==> reply == Error(SESSION_MISSING))
            && (s.hostSession.Some? && reply.CommandDone? ==> reply.servedBy == s.hostSession.value)
  {
  }

  /** A health check is answered in any state; it and a refused request change nothing. */
  lemma RefusalsChangeNothing(s: ChildState, capacity: nat, toolchain: Toolchain, request: Request)
    requires capacity >= 1 && !request.OpenHostSession? && (request.Health? || s.hostSession.None?)
    ensures Serve(s, capacity, toolchain, request)
         == (s, if request.Health? then HealthOk else Error("lean_rs.worker.session_missing"))
  {
  }

  /** Queries, clears and commands alike are refused when there is no current session, and
      otherwise dispatched to one that has the live epoch if and only if nothing was
      registered since the last open. */
  lemma CommandsRunOnFreshSessions(registry: nat, capacity: nat, toolchain: Toolchain, requests: seq<Request>, i: nat)
    requires capacity >= 1 && i < |requests| && !requests[i].Health? && !requests[i].OpenHostSession?
    ensures var s, reply := Run(registry, capacity, toolchain, requests[..i]),
                            ReplyAt(registry, capacity, toolchain, requests, i);
            && (s.hostSession.None? ==> reply == Error(SESSION_MISSING))
            && (s.hostSession.Some? ==>
                  && (s.hostSession.value.epoch == s.registry <==> RegisteredSinceOpen(requests[..i]) == 0)
                  && (reply.CommandDone? ==> reply.servedBy == s.hostSession.value))
  {
    DispatchNeedsSession(Run(registry, capacity, toolchain, requests[..i]), capacity, toolchain, requests[i]);
    CurrentIsBehindByRegistrations(registry, capacity, toolchain, requests[..i]);
  }

  /** A confirmed open followed at once by the same open is answered by reuse exactly when
      the epoch reads around it succeed; the supervisor's reasoning that a consecutive
      reopen can never miss (crates/lean-rs-worker-parent/src/supervisor.rs:2062-2067) does
      not cover a failed read. */
  lemma ReopenReuses(s: ChildState, capacity: nat, key: HostSessionKey, first: OpenInputs, second: OpenInputs)
    requires capacity >= 1 && !Open(s, capacity, key, first).1.Error?
    ensures var (s', reply) := Open(s, capacity, key, first);
            Open(s', capacity, key, second).1.HostSessionReused? <==>
              second.firstRead && (reply.HostSessionOpened? ==> first.lastRead)
  {
    var (s', reply) := Open(s, capacity, key, first);
    ReuseExactly(s, capacity, key, first);
    if !reply.HostSessionReused? {
      MissExactly(s, capacity, key, first);
      assert reply.HostSessionOpened?;
    }
    ReuseExactly(s', capacity, key, second);
    OpenLeavesFresh(s, capacity, key, first);
    if second.firstRead {
      SweepOfFresh(s', second.firstClear);
      IsHeldByParts(s', key);
    } else {
      SweepLeavesFresh(s', false, second.firstClear);
    }
  }

  /** Serving requests one after another. */
  function ServeAll(s: ChildState, capacity: nat, toolchain: Toolchain, requests: seq<Request>): ChildState
    requires capacity >= 1
  {
    if requests == [] then s
    else
      var n := |requests| - 1;
      Serve(ServeAll(s, capacity, toolchain, requests[..n]), capacity, toolchain, requests[n]).0
  }

  lemma ServeLeavesThePool(s: ChildState, capacity: nat, toolchain: Toolchain, request: Request)
    requires capacity >= 1 && !request.OpenHostSession?
    ensures Serve(s, capacity, toolchain, request).0.parked == s.parked
  {
  }

  lemma {:induction false} RequestsMoveRegistry(s: ChildState, capacity: nat, toolchain: Toolchain,
                                                requests: seq<Request>)
    requires capacity >= 1 && forall i :: 0 <= i < |requests| ==> !requests[i].OpenHostSession?
    ensures var s' := ServeAll(s, capacity, toolchain, requests);
            && s'.hostSession == s.hostSession && s'.parked == s.parked
            && s'.registry == s.registry + if s.hostSession.Some? then RegisteredSinceOpen(requests) else 0
  {
    if requests != [] {
      var n := |requests| - 1;
      RequestsMoveRegistry(s, capacity, toolchain, requests[..n]);
      ServeMovesRegistry(ServeAll(s, capacity, toolchain, requests[..n]), capacity, toolchain, requests[n]);
      ServeLeavesThePool(ServeAll(s, capacity, toolchain, requests[..n]), capacity, toolchain, requests[n]);
    }
  }

  /** A pool of fresh sessions, after the registry has moved by `registered`, reuses its current
      session exactly when the read succeeds and nothing was registered. */
  lemma ReuseOfCurrent(s: ChildState, t: ChildState, capacity: nat, key: HostSessionKey, inputs: OpenInputs,
                       registered: nat)
    requires capacity >= 1 && AllFresh(s) && t.hostSession == s.hostSession && t.parked == s.parked
    requires t.registry == s.registry + registered
    requires s.hostSession.Some? && s.hostSession.value.key == key
    ensures Open(t, capacity, key, inputs).1.HostSessionReused? <==> inputs.firstRead && registered == 0
  {
    assert Held(t) == Held(s);
    ReuseExactly(t, capacity, key, inputs);
    var swept := Sweep(t, inputs.firstRead, inputs.firstClear);
    if inputs.firstRead && registered == 0 {
      SweepOfFresh(t, inputs.firstClear);
      IsHeldByParts(t, key);
    } else {
      SweepLeavesFresh(t, inputs.firstRead, inputs.firstClear);
      SweepHolds(t, inputs.firstRead, inputs.firstClear);
      FreshOnlyMembers(LiveEpoch(t, inputs.firstRead), Held(t));
      NothingLeft(swept);
    }
  }

  lemma NothingLeft(s: ChildState)
    ensures Held(s) == [] <==> forall x :: x !in Held(s)
  {
    if Held(s) != [] { assert Held(s)[0] in Held(s); }
  }

  /** The same with requests other than opens in between: reuse if and only if, besides, none
      of them registers anything. */
  lemma ReopenAfterRequests(s: ChildState, capacity: nat, toolchain: Toolchain, key: HostSessionKey,
                            first: OpenInputs, between: seq<Request>, second: OpenInputs)
    requires capacity >= 1 && !Open(s, capacity, key, first).1.Error?
    requires forall i :: 0 <= i < |between| ==> !between[i].OpenHostSession?
    ensures var (s', reply) := Open(s, capacity, key, first);
            var t := ServeAll(s', capacity, toolchain, between);
            Open(t, capacity, key, second).1.HostSessionReused? <==>
              && second.firstRead && (reply.HostSessionOpened? ==> first.lastRead)
              && RegisteredSinceOpen(between) == 0
  {
    var (s', reply) := Open(s, capacity, key, first);
    var t := ServeAll(s', capacity, toolchain, between);
    RequestsMoveRegistry(s', capacity, toolchain, between);
    OpenLeavesFresh(s, capacity, key, first);
    ReuseExactly(s, capacity, key, first);
    if !reply.HostSessionReused? { MissExactly(s, capacity, key, first); }
    if s'.hostSession.Some? {
      ReuseOfCurrent(s', t, capacity, key, second, RegisteredSinceOpen(between));
    } else {
      SweepLeavesFresh(t, second.firstRead, second.firstClear);
      SweepHolds(t, second.firstRead, second.firstClear);
      assert Held(t) == Held(s') == [];
      ReuseExactly(t, capacity, key, second);
    }
  }
}
