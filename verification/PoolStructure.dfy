/** What every run of the worker child keeps, failures included: the pool's bound at every
    intermediate point, one session per key, no session overwritten, clear before drop, one
    anchor per project and mode. */
module PoolStructure {
  import opened Prelude
  import opened SnapshotCacheKey
  import opened WorkerChildModel

  // ----- reading the log -----

  /** What a log amounts to: the sessions it opened and dropped, the anchors it built, the
      largest number of sessions ever alive at once, whether it ends in a clear followed by
      drops alone, and whether every drop so far came right after such a stretch. */
  datatype Ledger = Ledger(made: seq<Session>, dropped: seq<Session>, built: seq<HostAnchor>, peak: int,
                           clearing: bool, orderly: bool)

  function Entry(g: Ledger, e: Event): Ledger {
    match e
    case SessionOpened(x) =>
      var alive := |g.made| + 1 - |g.dropped|;
      Ledger(g.made + [x], g.dropped, g.built, if alive > g.peak then alive else g.peak, false, g.orderly)
    case SessionDropped(x) => g.(dropped := g.dropped + [x], orderly := g.orderly && g.clearing)
    case SnapshotsCleared(_) => g.(clearing := true)
    case SnapshotStored(_) => g.(clearing := false)
    case AnchorBuilt(anchor) => g.(built := g.built + [anchor], clearing := false)
  }

  function ReadLog(events: seq<Event>): Ledger {
    if events == [] then Ledger([], [], [], 0, false, true)
    else Entry(ReadLog(events[..|events| - 1]), events[|events| - 1])
  }

  /** Environments alive after these events. */
  function Live(events: seq<Event>): int {
    |ReadLog(events).made| - |ReadLog(events).dropped|
  }

  /** Going back from event `i` over drops alone, one meets a clear. */
  predicate ClearedJustBefore(events: seq<Event>, i: nat)
    requires i <= |events|
  {
    i > 0 && (events[i - 1].SnapshotsCleared? || (events[i - 1].SessionDropped? && ClearedJustBefore(events, i - 1)))
  }

  /** The bound holds after every single event, not only between requests. */
  ghost predicate NeverAbove(events: seq<Event>, capacity: nat) {
    forall i :: 0 <= i <= |events| ==> Live(events[..i]) <= capacity
  }

  ghost predicate DropsFollowClear(events: seq<Event>) {
    forall i :: 0 <= i < |events| && events[i].SessionDropped? ==> ClearedJustBefore(events, i)
  }

  lemma {:induction false} LedgerMeansPeak(events: seq<Event>, i: nat)
    requires i <= |events|
    ensures Live(events[..i]) <= ReadLog(events).peak
    decreases |events|
  {
    var n := |events| - 1;
    if i == |events| {
      assert events[..i] == events;
      LedgerAlive(events);
    } else {
      assert events[..n][..i] == events[..i];
      LedgerMeansPeak(events[..n], i);
    }
  }

  lemma {:induction false} LedgerAlive(events: seq<Event>)
    ensures Live(events) <= ReadLog(events).peak
  {
    if events != [] { LedgerAlive(events[..|events| - 1]); }
  }

  lemma {:induction false} LedgerMeansClearing(events: seq<Event>)
    ensures ReadLog(events).clearing ==> ClearedJustBefore(events, |events|)
  {
    if events != [] {
      var n := |events| - 1;
      LedgerMeansClearing(events[..n]);
      ClearedJustBeforeFrame(events, n, n);
    }
  }

  lemma {:induction false} ClearedJustBeforeFrame(events: seq<Event>, n: nat, i: nat)
    requires i <= n <= |events|
    ensures ClearedJustBefore(events[..n], i) == ClearedJustBefore(events, i)
  {
    if i > 0 { ClearedJustBeforeFrame(events, n, i - 1); }
  }

  lemma {:induction false} LedgerMeansOrder(events: seq<Event>)
    requires ReadLog(events).orderly
    ensures DropsFollowClear(events)
  {
    if events != [] {
      var n := |events| - 1;
      LedgerMeansOrder(events[..n]);
      LedgerMeansClearing(events[..n]);
      forall i | 0 <= i < |events| && events[i].SessionDropped? ensures ClearedJustBefore(events, i) {
        assert i < n ==> events[..n][i] == events[i];
        ClearedJustBeforeFrame(events, n, i);
      }
    }
  }

  /** Every opened session is either held or was dropped by an explicit event: none was
      overwritten, and none is held twice. Opens are numbered in order. */
  ghost predicate AccountsFor(g: Ledger, held: multiset<Session>, capacity: nat) {
    && multiset(g.made) == held + multiset(g.dropped)
    && (forall i :: 0 <= i < |g.made| ==> g.made[i].env == i)
    && g.peak <= capacity
    && g.orderly
  }

  ghost predicate Distinct(sessions: seq<Session>) {
    forall i, j :: 0 <= i < j < |sessions| ==>
      sessions[i].key != sessions[j].key && sessions[i].env != sessions[j].env
  }

  ghost predicate HeldOk(s: ChildState, capacity: nat) {
    && |Held(s)| <= capacity
    && Distinct(Held(s))
    && (forall x :: x in Held(s) ==> x.env < s.imports)
  }

  /** Holds between any two steps inside a request. */
  ghost predicate PoolOk(s: ChildState, capacity: nat) {
    && HeldOk(s, capacity)
    && NoDuplicates(s.anchors) && s.anchors == ReadLog(s.events).built
    && s.imports == |ReadLog(s.events).made|
    && AccountsFor(ReadLog(s.events), multiset(Held(s)), capacity)
  }

  /** Holds between requests: there is always room for the session being served. */
  ghost predicate PoolInvariant(s: ChildState, capacity: nat) {
    PoolOk(s, capacity) && |s.parked| < capacity
  }

  // ----- growing the log -----

  lemma ReadLogAppend(events: seq<Event>, e: Event)
    ensures ReadLog(events + [e]) == Entry(ReadLog(events), e)
  {
    assert (events + [e])[..|events|] == events;
  }

  function DropAll(g: Ledger, xs: seq<Session>): Ledger
    decreases |xs|
  {
    if xs == [] then g else DropAll(Entry(g, SessionDropped(xs[0])), xs[1..])
  }

  lemma {:induction false} ReadLogDrops(events: seq<Event>, xs: seq<Session>)
    ensures ReadLog(events + Drops(xs)) == DropAll(ReadLog(events), xs)
    decreases |xs|
  {
    if xs == [] {
      assert events + Drops(xs) == events;
    } else {
      var next := events + [SessionDropped(xs[0])];
      assert events + Drops(xs) == next + Drops(xs[1..]);
      ReadLogAppend(events, SessionDropped(xs[0]));
      ReadLogDrops(next, xs[1..]);
    }
  }

  lemma AccountDrop(g: Ledger, x: Session, held: multiset<Session>, capacity: nat)
    requires AccountsFor(g, held + multiset{x}, capacity) && g.clearing
    ensures AccountsFor(Entry(g, SessionDropped(x)), held, capacity)
  {
  }

  lemma {:induction false} AccountDropAll(g: Ledger, xs: seq<Session>, held: multiset<Session>, capacity: nat)
    requires AccountsFor(g, held + multiset(xs), capacity) && g.clearing
    ensures AccountsFor(DropAll(g, xs), held, capacity)
    ensures DropAll(g, xs).made == g.made && DropAll(g, xs).built == g.built
    decreases |xs|
  {
    if xs == [] {
      assert multiset(xs) == multiset{};
    } else {
      var rest := held + multiset(xs[1..]);
      assert multiset(xs) == multiset{xs[0]} + multiset(xs[1..]) by { assert xs == [xs[0]] + xs[1..]; }
      assert held + multiset(xs) == rest + multiset{xs[0]};
      AccountDrop(g, xs[0], rest, capacity);
      AccountDropAll(Entry(g, SessionDropped(xs[0])), xs[1..], held, capacity);
    }
  }

  lemma AccountOpen(g: Ledger, x: Session, held: multiset<Session>, capacity: nat)
    requires AccountsFor(g, held, capacity) && |held| < capacity && x.env == |g.made|
    ensures AccountsFor(Entry(g, SessionOpened(x)), held + multiset{x}, capacity)
  {
    assert |multiset(g.made)| == |held| + |multiset(g.dropped)|;
  }

  // ----- sequences of sessions -----

  lemma {:induction false} FreshOnlyMembers(live: Option<nat>, xs: seq<Session>)
    ensures forall x :: x in FreshOnly(live, xs) <==> x in xs && !IsStale(live, x)
    ensures StaleOnly(live, xs) == [] ==> FreshOnly(live, xs) == xs
  {
    if xs != [] {
      FreshOnlyMembers(live, xs[1..]);
      assert xs == [xs[0]] + xs[1..];
    }
  }

  lemma MultisetCons<T>(x: T, xs: seq<T>)
    ensures multiset([x] + xs) == multiset{x} + multiset(xs)
  {
  }

  lemma {:induction false} FreshAndStalePartition(live: Option<nat>, xs: seq<Session>)
    ensures multiset(xs) == multiset(FreshOnly(live, xs)) + multiset(StaleOnly(live, xs))
  {
    if xs != [] {
      var x, rest := xs[0], xs[1..];
      FreshAndStalePartition(live, rest);
      assert xs == [x] + rest;
      MultisetCons(x, rest);
      MultisetCons(x, FreshOnly(live, rest));
      MultisetCons(x, StaleOnly(live, rest));
    }
  }

  lemma {:induction false} FreshOnlyDistinct(live: Option<nat>, xs: seq<Session>)
    requires Distinct(xs)
    ensures Distinct(FreshOnly(live, xs))
  {
    if xs != [] {
      FreshOnlyDistinct(live, xs[1..]);
      FreshOnlyMembers(live, xs[1..]);
      var rest := FreshOnly(live, xs[1..]);
      forall i | 0 <= i < |rest| ensures rest[i].key != xs[0].key && rest[i].env != xs[0].env {
        assert rest[i] in xs[1..];
      }
    }
  }

  lemma {:induction false} FreshOnlyAppend(live: Option<nat>, xs: seq<Session>, ys: seq<Session>)
    ensures FreshOnly(live, xs + ys) == FreshOnly(live, xs) + FreshOnly(live, ys)
  {
    var all := xs + ys;
    if xs == [] {
      assert all == ys;
    } else {
      assert all[0] == xs[0] && all[1..] == xs[1..] + ys;
      FreshOnlyAppend(live, xs[1..], ys);
    }
  }

  // ----- the steps keep the pool -----

  function LiveEpoch(s: ChildState, readOk: bool): Option<nat> {
    if readOk then Some(s.registry) else None
  }

  /** After a sweep exactly the sessions carrying the epoch that was read are held, in the
      order they had. A failed read leaves nothing. */
  lemma SweepHolds(s: ChildState, readOk: bool, clearOk: bool)
    ensures Held(Sweep(s, readOk, clearOk)) == FreshOnly(LiveEpoch(s, readOk), Held(s))
    ensures Sweep(s, readOk, clearOk).registry == s.registry && Sweep(s, readOk, clearOk).imports == s.imports
    ensures Sweep(s, readOk, clearOk).anchors == s.anchors
    ensures |Sweep(s, readOk, clearOk).parked| <= |s.parked|
  {
    var live := LiveEpoch(s, readOk);
    FreshOnlyMembers(live, Held(s));
    FreshOnlyAppend(live, s.parked, if s.hostSession.Some? then [s.hostSession.value] else []);
    if s.hostSession.Some? {
      assert [s.hostSession.value][1..] == [];
    }
  }

  lemma SweepKeepsPool(s: ChildState, readOk: bool, clearOk: bool, capacity: nat)
    requires PoolOk(s, capacity)
    ensures PoolOk(Sweep(s, readOk, clearOk), capacity)
  {
    var live := LiveEpoch(s, readOk);
    var kept, stale := FreshOnly(live, Held(s)), StaleOnly(live, Held(s));
    SweepHolds(s, readOk, clearOk);
    FreshOnlyMembers(live, Held(s));
    FreshOnlyDistinct(live, Held(s));
    if stale != [] {
      FreshAndStalePartition(live, Held(s));
      ReadLogAppend(s.events, SnapshotsCleared(clearOk));
      ReadLogDrops(s.events + [SnapshotsCleared(clearOk)], stale);
      AccountDropAll(Entry(ReadLog(s.events), SnapshotsCleared(clearOk)), stale, multiset(kept), capacity);
    }
  }

  lemma AnchorKeepsPool(s: ChildState, key: HostSessionKey, inputs: OpenInputs, capacity: nat)
    requires PoolOk(s, capacity)
    ensures PoolOk(FindOrBuildAnchor(s, key, inputs).0, capacity)
    ensures Held(FindOrBuildAnchor(s, key, inputs).0) == Held(s)
  {
    assert Held(FindOrBuildAnchor(s, key, inputs).0) == Held(s);
    ReadLogAppend(s.events, AnchorBuilt(HostAnchor(key.projectRoot, key.mode)));
  }

  lemma ParkHolds(s: ChildState)
    ensures Held(Park(s)) == Held(s)
  {
  }

  /** Eviction keeps the most recent `capacity - 1` parked sessions and nothing else changes
      among the held ones. */
  lemma {:induction false} EvictToFitHolds(s: ChildState, capacity: nat, clearOk: bool)
    requires capacity >= 1 && s.hostSession.None?
    ensures var s' := EvictToFit(s, capacity, clearOk);
            && |s'.parked| == Min(|s.parked|, capacity - 1)
            && s'.parked == s.parked[|s.parked| - |s'.parked|..]
            && s' == s.(parked := s'.parked, snapshots := s'.snapshots, events := s'.events)
    decreases |s.parked|
  {
    if |s.parked| >= capacity {
      var c := ClearSnapshots(s, clearOk);
      EvictToFitHolds(c.(parked := s.parked[1..], events := c.events + [SessionDropped(s.parked[0])]), capacity, clearOk);
    }
  }

  lemma DropFirstAccounts(events: seq<Event>, x: Session, rest: seq<Session>, capacity: nat, clearOk: bool)
    requires AccountsFor(ReadLog(events), multiset([x] + rest), capacity)
    ensures var after := ReadLog(events + [SnapshotsCleared(clearOk)] + [SessionDropped(x)]);
            && AccountsFor(after, multiset(rest), capacity)
            && after.made == ReadLog(events).made && after.built == ReadLog(events).built
  {
    var cleared := events + [SnapshotsCleared(clearOk)];
    MultisetCons(x, rest);
    ReadLogAppend(events, SnapshotsCleared(clearOk));
    ReadLogAppend(cleared, SessionDropped(x));
    assert multiset([x] + rest) == multiset(rest) + multiset{x};
    AccountDrop(ReadLog(cleared), x, multiset(rest), capacity);
  }

  lemma DistinctTail(held: seq<Session>)
    requires held != [] && Distinct(held)
    ensures Distinct(held[1..]) && forall y :: y in held[1..] ==> y in held
    ensures held == [held[0]] + held[1..]
  {
  }

  lemma EvictOneKeepsPool(s: ChildState, capacity: nat, clearOk: bool)
    requires PoolOk(s, capacity) && s.hostSession.None? && s.parked != []
    ensures var c := ClearSnapshots(s, clearOk);
            PoolOk(c.(parked := s.parked[1..], events := c.events + [SessionDropped(s.parked[0])]), capacity)
  {
    var c, held := ClearSnapshots(s, clearOk), s.parked;
    var s' := c.(parked := held[1..], events := c.events + [SessionDropped(held[0])]);
    HeldWhenNoneIsCurrent(s);
    HeldWhenNoneIsCurrent(s');
    DistinctTail(held);
    DropFirstAccounts(s.events, held[0], held[1..], capacity, clearOk);
  }

  lemma HeldWhenNoneIsCurrent(s: ChildState)
    requires s.hostSession.None?
    ensures Held(s) == s.parked
  {
  }

  lemma {:induction false} EvictToFitKeepsPool(s: ChildState, capacity: nat, clearOk: bool)
    requires capacity >= 1 && PoolOk(s, capacity) && s.hostSession.None?
    ensures PoolOk(EvictToFit(s, capacity, clearOk), capacity)
    decreases |s.parked|
  {
    if |s.parked| >= capacity {
      var c := ClearSnapshots(s, clearOk);
      EvictOneKeepsPool(s, capacity, clearOk);
      EvictToFitKeepsPool(c.(parked := s.parked[1..], events := c.events + [SessionDropped(s.parked[0])]),
                          capacity, clearOk);
    }
  }

  lemma ImportKeepsPool(s: ChildState, key: HostSessionKey, inputs: OpenInputs, capacity: nat)
    requires PoolOk(s, capacity) && s.hostSession.None? && |s.parked| < capacity
    requires forall x :: x in s.parked ==> x.key != key
    ensures PoolInvariant(Import(s, key, inputs).0, capacity)
  {
    if inputs.imported {
      var session := Session(key, inputs.registryAfterImport, s.imports);
      var installed := Install(s, key, inputs.registryAfterImport);
      assert Held(s) == s.parked && Held(installed) == s.parked + [session];
      ReadLogAppend(s.events, SessionOpened(session));
      AccountOpen(ReadLog(s.events), session, multiset(s.parked), capacity);
      SweepKeepsPool(installed, inputs.lastRead, inputs.lastClear, capacity);
      SweepHolds(installed, inputs.lastRead, inputs.lastClear);
    }
  }

  lemma AnchorAndImportKeepsPool(s: ChildState, capacity: nat, key: HostSessionKey, inputs: OpenInputs)
    requires PoolInvariant(s, capacity) && s.hostSession.None?
    requires forall x :: x in s.parked ==> x.key != key
    ensures PoolInvariant(AnchorAndImport(s, key, inputs).0, capacity)
  {
    var (s', anchored) := FindOrBuildAnchor(s, key, inputs);
    AnchorKeepsPool(s, key, inputs, capacity);
    if anchored { ImportKeepsPool(s', key, inputs, capacity); }
  }

  lemma MissKeepsPool(s: ChildState, capacity: nat, key: HostSessionKey, inputs: OpenInputs)
    requires capacity >= 1 && PoolInvariant(s, capacity)
    requires forall x :: x in Held(s) ==> x.key != key
    ensures PoolInvariant(AnchorAndImport(EvictToFit(Park(s), capacity, inputs.evictClear), key, inputs).0, capacity)
  {
    ParkHolds(s);
    EvictToFitKeepsPool(Park(s), capacity, inputs.evictClear);
    EvictToFitHolds(Park(s), capacity, inputs.evictClear);
    AnchorAndImportKeepsPool(EvictToFit(Park(s), capacity, inputs.evictClear), capacity, key, inputs);
  }

  lemma MovingIsAPermutation<T>(xs: seq<T>, ys: seq<T>, i: nat)
    requires i < |xs|
    ensures multiset(xs[..i] + xs[i + 1..] + ys + [xs[i]]) == multiset(xs + ys)
  {
    var x := xs[i];
    calc {
      multiset(xs[..i] + xs[i + 1..] + ys + [x]);
      multiset(xs[..i]) + multiset(xs[i + 1..]) + multiset(ys) + multiset{x};
      { assert xs == xs[..i] + ([x] + xs[i + 1..]); }
      multiset(xs) + multiset(ys);
    }
  }

  /** A pooled hit permutes the held sessions: none is lost and none is made. */
  lemma SwapHolds(s: ChildState, i: nat)
    requires i < |s.parked|
    ensures multiset(Held(SwapIn(s, i))) == multiset(Held(s))
    ensures |Held(SwapIn(s, i))| == |Held(s)| && |SwapIn(s, i).parked| <= |s.parked|
    ensures Distinct(Held(s)) ==> Distinct(Held(SwapIn(s, i)))
  {
    var outgoing := if s.hostSession.Some? then [s.hostSession.value] else [];
    MovingIsAPermutation(s.parked, outgoing, i);
    assert Held(s) == s.parked + outgoing;
    if Distinct(Held(s)) { SwapIsDistinct(s.parked, outgoing, i); }
  }

  lemma SwapKeepsPool(s: ChildState, i: nat, capacity: nat)
    requires PoolInvariant(s, capacity) && i < |s.parked|
    ensures PoolInvariant(SwapIn(s, i), capacity)
  {
    SwapHolds(s, i);
    assert forall x :: x in Held(SwapIn(s, i)) ==> x in multiset(Held(SwapIn(s, i)));
  }

  lemma SwapIsDistinct(parked: seq<Session>, outgoing: seq<Session>, i: nat)
    requires i < |parked| && |outgoing| <= 1 && Distinct(parked + outgoing)
    ensures Distinct(parked[..i] + parked[i + 1..] + outgoing + [parked[i]])
  {
    var xs, ys := parked + outgoing, parked[..i] + parked[i + 1..] + outgoing + [parked[i]];
    var n := |xs|;
    assert forall j :: 0 <= j < i ==> ys[j] == xs[j];
    assert forall j :: i <= j < n - 1 ==> ys[j] == xs[j + 1];
    assert ys[n - 1] == xs[i];
  }

  lemma OpenSweptKeepsPool(s: ChildState, capacity: nat, key: HostSessionKey, inputs: OpenInputs)
    requires capacity >= 1 && PoolInvariant(s, capacity)
    ensures PoolInvariant(OpenSwept(s, capacity, key, inputs).0, capacity)
  {
    if s.hostSession.Some? && s.hostSession.value.key == key {
    } else if Position(s.parked, key).Some? {
      SwapKeepsPool(s, Position(s.parked, key).value, capacity);
    } else {
      assert forall x :: x in Held(s) ==> x.key != key;
      MissKeepsPool(s, capacity, key, inputs);
    }
  }

  lemma OpenKeepsPool(s: ChildState, capacity: nat, key: HostSessionKey, inputs: OpenInputs)
    requires capacity >= 1 && PoolInvariant(s, capacity)
    ensures PoolInvariant(Open(s, capacity, key, inputs).0, capacity)
  {
    SweepKeepsPool(s, inputs.firstRead, inputs.firstClear, capacity);
    SweepHolds(s, inputs.firstRead, inputs.firstClear);
    OpenSweptKeepsPool(Sweep(s, inputs.firstRead, inputs.firstClear), capacity, key, inputs);
  }

  lemma QuietKeepsPool(s: ChildState, capacity: nat, e: Event, snapshots: map<Text, Snapshot>)
    requires PoolInvariant(s, capacity)
    requires e.SnapshotsCleared? || e.SnapshotStored?
    ensures PoolInvariant(s.(snapshots := snapshots, events := s.events + [e]), capacity)
  {
    var s' := s.(snapshots := snapshots, events := s.events + [e]);
    assert Held(s') == Held(s);
    ReadLogAppend(s.events, e);
  }

  lemma SnapshotsAreOutsideThePool(s: ChildState, capacity: nat, snapshots: map<Text, Snapshot>)
    requires PoolInvariant(s, capacity)
    ensures PoolInvariant(s.(snapshots := snapshots), capacity)
  {
    assert Held(s.(snapshots := snapshots)) == Held(s);
  }

  lemma RegisterKeepsPool(s: ChildState, capacity: nat, registered: nat)
    requires PoolInvariant(s, capacity)
    ensures PoolInvariant(Register(s, registered), capacity)
  {
    assert Held(Register(s, registered)) == Held(s);
  }

  lemma LookUpKeepsPool(s: ChildState, capacity: nat, cacheKey: Text, built: Snapshot, inputs: QueryInputs)
    requires PoolInvariant(s, capacity)
    ensures PoolInvariant(LookUp(s, cacheKey, built, inputs).0, capacity)
  {
    var after := LookUp(s, cacheKey, built, inputs).0.snapshots;
    SnapshotsAreOutsideThePool(s, capacity, after);
    QuietKeepsPool(s, capacity, SnapshotStored(built), after);
  }

  lemma QueryKeepsPool(s: ChildState, capacity: nat, cacheKey: Text, session: Session, query: ModuleQuery,
                       inputs: QueryInputs)
    requires PoolInvariant(s, capacity)
    ensures PoolInvariant(Query(s, cacheKey, session, query, inputs).0, capacity)
  {
    QuietKeepsPool(s, capacity, SnapshotsCleared(false), s.snapshots);
    QuietKeepsPool(s, capacity, SnapshotsCleared(true), map[]);
    LookUpKeepsPool(s, capacity, cacheKey, Snapshot(session.env, query), inputs);
    LookUpKeepsPool(ClearSnapshots(s, true), capacity, cacheKey, Snapshot(session.env, query), inputs);
  }

  lemma SessionRequestKeepsPool(s: ChildState, capacity: nat, toolchain: Toolchain, request: Request)
    requires capacity >= 1 && PoolInvariant(s, capacity) && s.hostSession.Some? && !request.OpenHostSession?
    ensures PoolInvariant(Serve(s, capacity, toolchain, request).0, capacity)
  {
    match request
    case ProcessModuleQueryBatch(query, inputs) =>
      RegisterKeepsPool(s, capacity, inputs.registered);
      QueryKeepsPool(Register(s, inputs.registered), capacity, QueryKey(toolchain, s.hostSession.value.key, query),
                     s.hostSession.value, query, inputs);
    case ClearModuleSnapshotCache(ok, registered, _) =>
      RegisterKeepsPool(s, capacity, registered);
      QuietKeepsPool(Register(s, registered), capacity, SnapshotsCleared(ok), ClearSnapshots(s, ok).snapshots);
    case HostCommand(_, registered, _) => RegisterKeepsPool(s, capacity, registered);
    case _ =>
  }

  lemma ServeKeepsPool(s: ChildState, capacity: nat, toolchain: Toolchain, request: Request)
    requires capacity >= 1 && PoolInvariant(s, capacity)
    ensures PoolInvariant(Serve(s, capacity, toolchain, request).0, capacity)
  {
    if request.OpenHostSession? {
      OpenKeepsPool(s, capacity, request.key, request.open);
    } else if s.hostSession.Some? {
      SessionRequestKeepsPool(s, capacity, toolchain, request);
    }
  }

  lemma {:induction false} RunKeepsPool(registry: nat, capacity: nat, toolchain: Toolchain, requests: seq<Request>)
    requires capacity >= 1
    ensures PoolInvariant(Run(registry, capacity, toolchain, requests), capacity)
  {
    if requests != [] {
      var n := |requests| - 1;
      RunKeepsPool(registry, capacity, toolchain, requests[..n]);
      ServeKeepsPool(Run(registry, capacity, toolchain, requests[..n]), capacity, toolchain, requests[n]);
    }
  }

  /** Every run, whatever Lean answers: held keys are pairwise distinct, at most
      `capacity - 1` sessions are parked, the live environments never exceed the capacity
      at any intermediate point, every opened session is held or was explicitly dropped, no
      drop lacks its clear, and the anchors are those that were built, no project and mode
      twice. */
  lemma EveryRunKeepsPool(registry: nat, capacity: nat, toolchain: Toolchain, requests: seq<Request>)
    requires capacity >= 1
    ensures var s, g := Run(registry, capacity, toolchain, requests),
                        ReadLog(Run(registry, capacity, toolchain, requests).events);
            && Distinct(Held(s)) && |s.parked| <= capacity - 1
            && NeverAbove(s.events, capacity)
            && multiset(g.made) == multiset(Held(s)) + multiset(g.dropped)
            && DropsFollowClear(s.events)
            && s.anchors == g.built && NoDuplicates(g.built)
  {
    RunKeepsPool(registry, capacity, toolchain, requests);
    var events := Run(registry, capacity, toolchain, requests).events;
    forall i | 0 <= i <= |events| ensures Live(events[..i]) <= capacity {
      LedgerMeansPeak(events, i);
    }
    LedgerMeansOrder(events);
  }
}
