/** The session pool refines the abstract least-recently-used list, with the corollaries its
    comments promise (crates/lean-rs-worker-child/src/child.rs:1024-1041, 1082-1117), and
    the supervisor's reuse hint mirrors it
    (crates/lean-rs-worker-parent/src/supervisor.rs:1966-1981). */
module PoolIsLru {
  import opened Prelude
  import opened SnapshotCacheKey
  import opened WorkerChildModel
  import opened PoolStructure
  import opened PoolReplies
  import opened LeastRecentlyUsed

  function Keys(sessions: seq<Session>): (keys: seq<HostSessionKey>)
    ensures |keys| == |sessions|
    ensures forall i :: 0 <= i < |keys| ==> keys[i] == sessions[i].key
  {
    seq(|sessions|, i requires 0 <= i < |sessions| => sessions[i].key)
  }

  /** Both epoch reads succeed and the registry stays put. */
  predicate Steady(inputs: OpenInputs, registry: nat) {
    && inputs.firstRead && inputs.lastRead
    && inputs.registryAfterAnchor == registry && inputs.registryAfterImport == registry
  }

  /** Every build, import and epoch read succeeds and the registry stays put. */
  predicate Undisturbed(inputs: OpenInputs, registry: nat) {
    Steady(inputs, registry) && inputs.anchorBuilt && inputs.imported
  }

  /** A run in which nothing moves the registry or hides it; builds and imports may fail. */
  ghost predicate SteadyRun(requests: seq<Request>, registry: nat) {
    forall i :: 0 <= i < |requests| ==>
      if requests[i].OpenHostSession? then Steady(requests[i].open, registry) else Registered(requests[i]) == 0
  }

  /** A steady run whose builds and imports succeed; other requests may come in between. */
  ghost predicate UndisturbedRun(requests: seq<Request>, registry: nat) {
    forall i :: 0 <= i < |requests| ==>
      if requests[i].OpenHostSession? then Undisturbed(requests[i].open, registry) else Registered(requests[i]) == 0
  }

  /** The keys opened, in order. */
  function Trace(requests: seq<Request>): seq<HostSessionKey> {
    if requests == [] then []
    else
      var before, last := Trace(requests[..|requests| - 1]), requests[|requests| - 1];
      if last.OpenHostSession? then before + [last.key] else before
  }

  /** How many requests of the run are answered by `HostSessionOpened`. */
  function Imports(registry: nat, capacity: nat, toolchain: Toolchain, requests: seq<Request>): nat
    requires capacity >= 1
  {
    if requests == [] then 0
    else
      var n := |requests| - 1;
      Imports(registry, capacity, toolchain, requests[..n]) +
      if ReplyAt(registry, capacity, toolchain, requests, n).HostSessionOpened? then 1 else 0
  }

  /** What a steady run keeps. */
  ghost predicate Settled(s: ChildState, registry: nat, capacity: nat) {
    PoolInvariant(s, capacity) && AllFresh(s) && s.registry == registry
  }

  lemma KeysOfDistinct(xs: seq<Session>)
    requires Distinct(xs)
    ensures NoDuplicates(Keys(xs))
  {
  }

  lemma IsHeldMeansKey(s: ChildState, key: HostSessionKey)
    ensures IsHeld(s, key) <==> key in Keys(Held(s))
  {
    if IsHeld(s, key) {
      var i :| 0 <= i < |Held(s)| && Held(s)[i].key == key;
      assert Keys(Held(s))[i] == key;
    }
  }

  lemma KeysOfMoved(xs: seq<Session>, ys: seq<Session>, i: nat)
    requires i < |xs| && Distinct(xs + ys)
    ensures Keys(xs[..i] + xs[i + 1..] + ys + [xs[i]]) == Remove(Keys(xs + ys), xs[i].key) + [xs[i].key]
  {
    var before, after := xs + ys, xs[..i] + xs[i + 1..] + ys + [xs[i]];
    var keys, n := Keys(before), |before| - 1;
    KeysOfDistinct(before);
    RemoveAt(keys, i);
    assert keys[i] == xs[i].key && |after| == n + 1;
    forall j | 0 <= j <= n
      ensures Keys(after)[j] == (keys[..i] + keys[i + 1..] + [keys[i]])[j]
    {
      if j < i {
        assert after[j] == before[j];
      } else if j < n {
        assert after[j] == before[j + 1];
      } else {
        assert after[j] == before[i];
      }
    }
    assert Keys(after) == keys[..i] + keys[i + 1..] + [keys[i]];
  }

  lemma KeysOfSwap(s: ChildState, i: nat)
    requires i < |s.parked| && Distinct(Held(s))
    ensures Keys(Held(SwapIn(s, i))) == Remove(Keys(Held(s)), s.parked[i].key) + [s.parked[i].key]
  {
    var outgoing := if s.hostSession.Some? then [s.hostSession.value] else [];
    assert Held(s) == s.parked + outgoing;
    assert Held(SwapIn(s, i)) == s.parked[..i] + s.parked[i + 1..] + outgoing + [s.parked[i]];
    KeysOfMoved(s.parked, outgoing, i);
  }

  lemma LastToTheBack<K>(q: seq<K>, n: nat)
    requires |q| == n + 1
    ensures q[..n] + q[n + 1..] + [q[n]] == q
  {
  }

  lemma UsingTheLast<K>(q: seq<K>, n: nat, k: K)
    requires |q| == n + 1 && k == q[n] && NoDuplicates(q)
    ensures Remove(q, k) + [k] == q
  {
    RemoveAt(q, n);
    LastToTheBack(q, n);
  }

  /** A reuse moves the key to the back. */
  lemma ReuseIsTouch(s: ChildState, capacity: nat, key: HostSessionKey, inputs: OpenInputs)
    requires capacity >= 1 && PoolInvariant(s, capacity) && IsHeld(s, key)
    ensures Keys(Held(OpenSwept(s, capacity, key, inputs).0)) == Touch(Keys(Held(s)), key, capacity)
  {
    IsHeldByParts(s, key);
    if s.hostSession.Some? && s.hostSession.value.key == key {
      KeysOfDistinct(Held(s));
      UsingTheLast(Keys(Held(s)), |s.parked|, key);
    } else {
      KeysOfSwap(s, Position(s.parked, key).value);
      SwapHolds(s, Position(s.parked, key).value);
    }
  }

  lemma ImportOfFresh(s: ChildState, key: HostSessionKey, inputs: OpenInputs)
    requires s.hostSession.None? && AllFresh(s) && Steady(inputs, s.registry) && inputs.imported
    ensures var s' := Import(s, key, inputs).0;
            && Held(s') == s.parked + [Session(key, s.registry, s.imports)]
            && s'.registry == s.registry && s'.hostSession.Some?
  {
    var session := Session(key, s.registry, s.imports);
    var installed := Install(s, key, s.registry);
    assert Held(s) == s.parked && Held(installed) == s.parked + [session];
    SweepOfFresh(installed, inputs.lastClear);
  }

  predicate CanImport(s: ChildState, key: HostSessionKey, inputs: OpenInputs) {
    (HostAnchor(key.projectRoot, key.mode) in s.anchors || inputs.anchorBuilt) && inputs.imported
  }

  lemma MissHolds(s: ChildState, capacity: nat, key: HostSessionKey, inputs: OpenInputs)
    requires capacity >= 1 && AllFresh(s) && !IsHeld(s, key)
    requires Steady(inputs, s.registry) && CanImport(s, key, inputs)
    ensures var s' := OpenSwept(s, capacity, key, inputs).0;
            && Held(s') == Suffix(Held(s), capacity - 1) + [Session(key, s.registry, s.imports)]
            && s'.registry == s.registry && s'.hostSession.Some?
  {
    IsHeldByParts(s, key);
    EvictToFitHolds(Park(s), capacity, inputs.evictClear);
    var evicted := EvictToFit(Park(s), capacity, inputs.evictClear);
    var anchored := FindOrBuildAnchor(evicted, key, inputs).0;
    assert anchored.parked == Suffix(Held(s), capacity - 1);
    assert AllFresh(anchored) by {
      assert Held(anchored) == anchored.parked;
      assert forall x :: x in Suffix(Held(s), capacity - 1) ==> x in Held(s);
    }
    ImportOfFresh(anchored, key, inputs);
  }

  lemma KeysOfSuffix(xs: seq<Session>, n: nat, x: Session)
    ensures Keys(Suffix(xs, n) + [x]) == Suffix(Keys(xs), n) + [x.key]
  {
  }

  /** A successful import puts the key at the back and drops from the front what no longer fits. */
  lemma MissIsTouch(s: ChildState, capacity: nat, key: HostSessionKey, inputs: OpenInputs)
    requires capacity >= 1 && AllFresh(s) && !IsHeld(s, key)
    requires Steady(inputs, s.registry) && CanImport(s, key, inputs)
    ensures var s' := OpenSwept(s, capacity, key, inputs).0;
            && Keys(Held(s')) == Touch(Keys(Held(s)), key, capacity)
            && s'.registry == s.registry && s'.hostSession.Some?
  {
    MissHolds(s, capacity, key, inputs);
    KeysOfSuffix(Held(s), capacity - 1, Session(key, s.registry, s.imports));
    IsHeldMeansKey(s, key);
    RemoveMembers(Keys(Held(s)), key);
    SuffixOfAppended(Keys(Held(s)), key, capacity);
  }

  lemma OpenIsTouch(s: ChildState, capacity: nat, key: HostSessionKey, inputs: OpenInputs)
    requires capacity >= 1 && Settled(s, s.registry, capacity) && Undisturbed(inputs, s.registry)
    ensures var (s', reply) := Open(s, capacity, key, inputs);
            && Keys(Held(s')) == Touch(Keys(Held(s)), key, capacity)
            && Settled(s', s.registry, capacity)
            && reply == (if key in Keys(Held(s)) then HostSessionReused(reply.importStats)
                         else HostSessionOpened(s.imports))
  {
    SteadyOpen(s, capacity, key, inputs);
    SweepOfFresh(s, inputs.firstClear);
    ReuseExactly(s, capacity, key, inputs);
    if !IsHeld(s, key) { MissExactly(s, capacity, key, inputs); }
    IsHeldMeansKey(s, key);
  }

  /** A steady open that is confirmed is one use of its key; one that fails keeps the most
      recent `capacity - 1` sessions. Either way the pool stays settled. */
  lemma SteadyOpen(s: ChildState, capacity: nat, key: HostSessionKey, inputs: OpenInputs)
    requires capacity >= 1 && Settled(s, s.registry, capacity) && Steady(inputs, s.registry)
    ensures var (s', reply) := Open(s, capacity, key, inputs);
            && Settled(s', s.registry, capacity)
            && (!reply.Error? ==> Keys(Held(s')) == Touch(Keys(Held(s)), key, capacity))
  {
    var (s', reply) := Open(s, capacity, key, inputs);
    SweepOfFresh(s, inputs.firstClear);
    OpenKeepsPool(s, capacity, key, inputs);
    OpenLeavesFresh(s, capacity, key, inputs);
    ReuseExactly(s, capacity, key, inputs);
    if IsHeld(s, key) {
      ReuseIsTouch(s, capacity, key, inputs);
    } else if CanImport(s, key, inputs) {
      MissExactly(s, capacity, key, inputs);
      MissIsTouch(s, capacity, key, inputs);
    } else {
      FailedOpenStaysFresh(s, capacity, key, inputs);
    }
  }

  lemma FailedOpenStaysFresh(s: ChildState, capacity: nat, key: HostSessionKey, inputs: OpenInputs)
    requires capacity >= 1 && AllFresh(s) && !IsHeld(s, key)
    requires Steady(inputs, s.registry) && !CanImport(s, key, inputs)
    ensures var (s', reply) := Open(s, capacity, key, inputs);
            reply.Error? && AllFresh(s') && s'.registry == s.registry
  {
    var s' := Open(s, capacity, key, inputs).0;
    SweepOfFresh(s, inputs.firstClear);
    MissExactly(s, capacity, key, inputs);
    FailedMissRegistry(s, capacity, key, inputs);
    assert Held(s') == s'.parked;
    assert forall x :: x in s'.parked ==> x in Held(s);
  }

  lemma FailedMissRegistry(s: ChildState, capacity: nat, key: HostSessionKey, inputs: OpenInputs)
    requires capacity >= 1 && !IsHeld(s, key) && Steady(inputs, s.registry) && !CanImport(s, key, inputs)
    ensures OpenSwept(s, capacity, key, inputs).0.registry == s.registry
  {
    IsHeldByParts(s, key);
    EvictToFitHolds(Park(s), capacity, inputs.evictClear);
  }

  lemma QueryLeavesThePool(s: ChildState, cacheKey: Text, session: Session, query: ModuleQuery, inputs: QueryInputs)
    ensures var (s', reply) := Query(s, cacheKey, session, query, inputs);
            && s' == s.(snapshots := s'.snapshots, events := s'.events)
            && (reply.Answer? || reply.Error?)
  {
  }

  lemma OthersLeaveThePool(s: ChildState, capacity: nat, toolchain: Toolchain, request: Request)
    requires capacity >= 1 && !request.OpenHostSession? && Registered(request) == 0
    ensures var (s', reply) := Serve(s, capacity, toolchain, request);
            && s' == s.(snapshots := s'.snapshots, events := s'.events)
            && !reply.HostSessionOpened? && !reply.HostSessionReused?
  {
    assert Register(s, 0) == s;
    if request.ProcessModuleQueryBatch? && s.hostSession.Some? {
      var session := s.hostSession.value;
      QueryLeavesThePool(s, QueryKey(toolchain, session.key, request.query), session, request.query, request.inputs);
    }
  }

  lemma AppendIsTouch<K>(trace: seq<K>, k: K, capacity: nat)
    ensures Bounded(trace + [k], capacity) == Touch(Bounded(trace, capacity), k, capacity)
    ensures Misses(trace + [k], capacity) == Misses(trace, capacity) + if k in Bounded(trace, capacity) then 0 else 1
  {
    assert (trace + [k])[..|trace|] == trace;
  }

  lemma {:induction false} RunIsBounded(registry: nat, capacity: nat, toolchain: Toolchain, requests: seq<Request>)
    requires capacity >= 1 && UndisturbedRun(requests, registry)
    ensures var s := Run(registry, capacity, toolchain, requests);
            Settled(s, registry, capacity) && Keys(Held(s)) == Bounded(Trace(requests), capacity)
    ensures Imports(registry, capacity, toolchain, requests) == Misses(Trace(requests), capacity)
  {
    RunKeepsPool(registry, capacity, toolchain, requests);
    if requests == [] {
      assert Held(Initial(registry)) == [];
    } else {
      var n := |requests| - 1;
      RunIsBounded(registry, capacity, toolchain, requests[..n]);
      var s, request := Run(registry, capacity, toolchain, requests[..n]), requests[n];
      if request.OpenHostSession? {
        OpenIsTouch(s, capacity, request.key, request.open);
        AppendIsTouch(Trace(requests[..n]), request.key, capacity);
      } else {
        OthersLeaveThePool(s, capacity, toolchain, request);
        assert Held(Run(registry, capacity, toolchain, requests)) == Held(s);
      }
    }
  }

  /** After every undisturbed run the parked keys followed by the current one are the last
      `capacity` distinct keys of the trace in order of last use, although the code only
      swaps, pushes to the back and removes from the front. */
  lemma PoolHoldsMostRecentKeys(registry: nat, capacity: nat, toolchain: Toolchain, requests: seq<Request>,
                                order: seq<HostSessionKey>)
    requires capacity >= 1 && UndisturbedRun(requests, registry)
    requires IsRecencyOrder(Trace(requests), order)
    ensures Keys(Held(Run(registry, capacity, toolchain, requests))) == Suffix(order, capacity)
  {
    RunIsBounded(registry, capacity, toolchain, requests);
    BoundedIsSuffix(Trace(requests), capacity);
    RecencyIsRecencyOrder(Trace(requests));
    RecencyOrderIsUnique(Trace(requests), order, Recency(Trace(requests)));
  }

  /** Inclusion: a larger pool holds everything a smaller one holds, so the number of imports
      never rises with the capacity (no Belady anomaly). */
  lemma LargerPoolsImportLess(registry: nat, c: nat, d: nat, toolchain: Toolchain, requests: seq<Request>)
    requires 1 <= c <= d && UndisturbedRun(requests, registry)
    ensures forall key :: key in Keys(Held(Run(registry, c, toolchain, requests))) ==>
                          key in Keys(Held(Run(registry, d, toolchain, requests)))
    ensures Imports(registry, d, toolchain, requests) <= Imports(registry, c, toolchain, requests)
  {
    var trace := Trace(requests);
    RunIsBounded(registry, c, toolchain, requests);
    RunIsBounded(registry, d, toolchain, requests);
    BoundedIsSuffix(trace, c);
    BoundedIsSuffix(trace, d);
    SuffixOfLargerBound(Recency(trace), c, d);
    MissesFallWithCapacity(trace, c, d);
  }

  /** One import per distinct profile, when the distinct profiles fit. */
  lemma OneImportPerDistinctKey(registry: nat, capacity: nat, toolchain: Toolchain, requests: seq<Request>)
    requires capacity >= 1 && UndisturbedRun(requests, registry)
    requires |(set key | key in Trace(requests))| <= capacity
    ensures Imports(registry, capacity, toolchain, requests) == |(set key | key in Trace(requests))|
  {
    RunIsBounded(registry, capacity, toolchain, requests);
    RecencyCountsDistinctKeys(Trace(requests));
    MissesWhenEverythingFits(Trace(requests), capacity);
  }

  /** At capacity 1: one import per change of key. */
  lemma OneImportPerChangeAtCapacityOne(registry: nat, toolchain: Toolchain, requests: seq<Request>)
    requires UndisturbedRun(requests, registry)
    ensures Imports(registry, 1, toolchain, requests) == Changes(Trace(requests))
  {
    RunIsBounded(registry, 1, toolchain, requests);
    MissesAtCapacityOne(Trace(requests));
  }

  // ----- capacity 1 is the child from before the pool -----

  /** The child before it had a pool: a mismatch clears the cache, drops the old session and
      imports again. */
  function PrePoolOpen(s: ChildState, key: HostSessionKey, inputs: OpenInputs): (ChildState, Response) {
    var s := Sweep(s, inputs.firstRead, inputs.firstClear);
    if s.hostSession.None? then AnchorAndImport(s, key, inputs)
    else if s.hostSession.value.key == key then (s, HostSessionReused(s.hostSession.value.env))
    else
      var c := ClearSnapshots(s, inputs.evictClear);
      AnchorAndImport(c.(hostSession := None, events := c.events + [SessionDropped(s.hostSession.value)]), key, inputs)
  }

  /** At capacity 1 nothing is ever parked and an open is exactly the pre-pool one, whatever
      Lean answers. */
  lemma CapacityOneIsPrePool(s: ChildState, key: HostSessionKey, inputs: OpenInputs)
    requires s.parked == []
    ensures Open(s, 1, key, inputs) == PrePoolOpen(s, key, inputs)
    ensures Open(s, 1, key, inputs).0.parked == []
  {
    var swept := Sweep(s, inputs.firstRead, inputs.firstClear);
    SweepHolds(s, inputs.firstRead, inputs.firstClear);
    assert swept.parked == [];
    if swept.hostSession.Some? && swept.hostSession.value.key != key {
      var x, parked := swept.hostSession.value, Park(swept);
      assert parked.parked == [x] && parked.parked[1..] == [];
      var c := ClearSnapshots(parked, inputs.evictClear);
      var dropped := c.(parked := [], events := c.events + [SessionDropped(x)]);
      assert EvictToFit(parked, 1, inputs.evictClear) == dropped;
      ImportParksNothing(dropped, key, inputs);
    } else {
      ImportParksNothing(swept, key, inputs);
    }
  }

  lemma ImportParksNothing(s: ChildState, key: HostSessionKey, inputs: OpenInputs)
    requires s.parked == []
    ensures AnchorAndImport(s, key, inputs).0.parked == []
  {
    var anchored := FindOrBuildAnchor(s, key, inputs).0;
    SweepHolds(Install(anchored, key, inputs.registryAfterImport), inputs.lastRead, inputs.lastClear);
  }

  // ----- the supervisor's reuse hint -----

  predicate Confirms(reply: Option<Response>) {
    reply.Some? && (reply.value.HostSessionOpened? || reply.value.HostSessionReused?)
  }

  /** The hint after an open: the key is noted when the open is confirmed, and otherwise
      everything is forgotten. */
  function HintAfterOpen(hint: seq<HostSessionKey>, key: HostSessionKey, capacity: nat, reply: Option<Response>)
    : seq<HostSessionKey>
  {
    if Confirms(reply) then Touch(hint, key, capacity) else []
  }

  /** `LeanWorker::open_session_keys`. */
  class ReuseHint {
    var openSessionKeys: seq<HostSessionKey>

    ghost predicate Valid(capacity: nat)
      reads this
    {
      NoDuplicates(openSessionKeys) && |openSessionKeys| <= capacity
    }

    constructor (capacity: nat)
      ensures Valid(capacity) && openSessionKeys == []
    {
      openSessionKeys := [];
    }

    /** `note_open_session_key`: one abstract use of the key. */
    method NoteOpenSessionKey(config: HostSessionKey, capacity: nat)
      requires capacity >= 1 && Valid(capacity)
      modifies this
      ensures Valid(capacity)
      ensures openSessionKeys == Touch(old(openSessionKeys), config, capacity)
    {
      TouchKeepsDistinct(openSessionKeys, config);
      var index := FirstIndex(openSessionKeys, (key: HostSessionKey) => key == config);
      if index.Some? {
        RemoveAt(openSessionKeys, index.value);
        openSessionKeys := openSessionKeys[..index.value] + openSessionKeys[index.value + 1..];
        openSessionKeys := openSessionKeys + [config];
        return;
      }
      RemoveMembers(openSessionKeys, config);
      openSessionKeys := openSessionKeys + [config];
      while |openSessionKeys| > capacity
        invariant Suffix(openSessionKeys, capacity) == Suffix(old(openSessionKeys) + [config], capacity)
        invariant NoDuplicates(openSessionKeys)
      {
        openSessionKeys := openSessionKeys[1..];
      }
    }

    /** What `open_worker_session` does once the frame is out; `None` when no reply was read. */
    method NoteReply(config: HostSessionKey, capacity: nat, reply: Option<Response>)
      requires capacity >= 1 && Valid(capacity)
      modifies this
      ensures Valid(capacity)
      ensures openSessionKeys == HintAfterOpen(old(openSessionKeys), config, capacity, reply)
    {
      if reply.Some? && (reply.value.HostSessionOpened? || reply.value.HostSessionReused?) {
        NoteOpenSessionKey(config, capacity);
      } else {
        openSessionKeys := [];
      }
    }
  }

  /** The hint along a run: `NoteReply` after each open, the reply to request `n` being read
      unless `lost(n)`. */
  function HintAlong(registry: nat, capacity: nat, toolchain: Toolchain, requests: seq<Request>, lost: nat -> bool)
    : seq<HostSessionKey>
    requires capacity >= 1
  {
    if requests == [] then []
    else
      var n := |requests| - 1;
      var hint := HintAlong(registry, capacity, toolchain, requests[..n], lost);
      if requests[n].OpenHostSession? then
        HintAfterOpen(hint, requests[n].key, capacity,
                      if lost(n) then None else Some(ReplyAt(registry, capacity, toolchain, requests, n)))
      else hint
  }

  ghost predicate IsSuffix<K>(p: seq<K>, q: seq<K>) {
    |p| <= |q| && p == q[|q| - |p|..]
  }

  lemma SuffixOfSuffix<K>(p: seq<K>, q: seq<K>, n: nat)
    requires IsSuffix(p, q)
    ensures IsSuffix(Suffix(p, n), Suffix(q, n))
  {
  }

  /** Using a key keeps one list a suffix of the other. */
  lemma TouchKeepsSuffix<K>(p: seq<K>, q: seq<K>, k: K, capacity: nat)
    requires IsSuffix(p, q) && NoDuplicates(q)
    ensures IsSuffix(Touch(p, k, capacity), Touch(q, k, capacity))
  {
    var head := q[..|q| - |p|];
    assert q == head + p;
    RemoveOfConcat(head, p, k);
    assert Remove(q, k) + [k] == Remove(head, k) + (Remove(p, k) + [k]);
    SuffixOfSuffix(Remove(p, k) + [k], Remove(q, k) + [k], capacity);
  }

  lemma {:induction false} RemoveOfConcat<K>(p: seq<K>, q: seq<K>, k: K)
    ensures Remove(p + q, k) == Remove(p, k) + Remove(q, k)
  {
    var all := p + q;
    if p == [] {
      assert all == q;
    } else {
      assert all[0] == p[0] && all[1..] == p[1..] + q;
      RemoveOfConcat(p[1..], q, k);
    }
  }

  lemma HintAfterOpenIsSuffix(s: ChildState, capacity: nat, key: HostSessionKey, inputs: OpenInputs,
                              hint: seq<HostSessionKey>, reply: Option<Response>)
    requires capacity >= 1 && Settled(s, s.registry, capacity) && Steady(inputs, s.registry)
    requires IsSuffix(hint, Keys(Held(s)))
    requires reply.Some? ==> reply.value == Open(s, capacity, key, inputs).1
    ensures var s' := Open(s, capacity, key, inputs).0;
            Settled(s', s.registry, capacity) && IsSuffix(HintAfterOpen(hint, key, capacity, reply), Keys(Held(s')))
  {
    SteadyOpen(s, capacity, key, inputs);
    KeysOfDistinct(Held(s));
    TouchKeepsSuffix(hint, Keys(Held(s)), key, capacity);
  }

  /** Along every steady run, whichever builds and imports fail and whichever replies are
      lost, the hint is a suffix of the keys the child holds, in its eviction order. */
  lemma {:induction false} HintIsSuffix(registry: nat, capacity: nat, toolchain: Toolchain, requests: seq<Request>,
                                        lost: nat -> bool)
    requires capacity >= 1 && SteadyRun(requests, registry)
    ensures var s := Run(registry, capacity, toolchain, requests);
            && Settled(s, registry, capacity)
            && IsSuffix(HintAlong(registry, capacity, toolchain, requests, lost), Keys(Held(s)))
  {
    RunKeepsPool(registry, capacity, toolchain, requests);
    if requests == [] {
      assert Held(Initial(registry)) == [];
    } else {
      var n := |requests| - 1;
      var s, request := Run(registry, capacity, toolchain, requests[..n]), requests[n];
      HintIsSuffix(registry, capacity, toolchain, requests[..n], lost);
      if request.OpenHostSession? {
        var hint := HintAlong(registry, capacity, toolchain, requests[..n], lost);
        HintAfterOpenIsSuffix(s, capacity, request.key, request.open, hint,
                              if lost(n) then None else Some(ReplyAt(registry, capacity, toolchain, requests, n)));
      } else {
        OthersLeaveThePool(s, capacity, toolchain, request);
        assert Held(Run(registry, capacity, toolchain, requests)) == Held(s);
      }
    }
  }

  /** So a hinted key is always reused: the hint over-predicts only once the registry has
      moved or could not be read. */
  lemma HintNeverOverpredicts(registry: nat, capacity: nat, toolchain: Toolchain, requests: seq<Request>,
                              lost: nat -> bool, key: HostSessionKey, inputs: OpenInputs)
    requires capacity >= 1 && SteadyRun(requests, registry) && inputs.firstRead
    requires key in HintAlong(registry, capacity, toolchain, requests, lost)
    ensures Open(Run(registry, capacity, toolchain, requests), capacity, key, inputs).1.HostSessionReused?
  {
    var s := Run(registry, capacity, toolchain, requests);
    HintIsSuffix(registry, capacity, toolchain, requests, lost);
    SweepOfFresh(s, inputs.firstClear);
    IsHeldMeansKey(s, key);
    ReuseExactly(s, capacity, key, inputs);
  }

  lemma {:induction false} HintIsBounded(registry: nat, capacity: nat, toolchain: Toolchain, requests: seq<Request>)
    requires capacity >= 1 && UndisturbedRun(requests, registry)
    ensures HintAlong(registry, capacity, toolchain, requests, _ => false) == Bounded(Trace(requests), capacity)
  {
    if requests != [] {
      var n := |requests| - 1;
      var s, request := Run(registry, capacity, toolchain, requests[..n]), requests[n];
      HintIsBounded(registry, capacity, toolchain, requests[..n]);
      RunIsBounded(registry, capacity, toolchain, requests[..n]);
      if request.OpenHostSession? {
        OpenIsTouch(s, capacity, request.key, request.open);
        AppendIsTouch(Trace(requests[..n]), request.key, capacity);
      }
    }
  }

  /** When no build or import fails and every reply is read, the hint equals the keys the child
      holds, so it predicts a reuse when, and only when, the child will reply one. */
  lemma HintPredictsReuse(registry: nat, capacity: nat, toolchain: Toolchain, requests: seq<Request>,
                          key: HostSessionKey, inputs: OpenInputs)
    requires capacity >= 1 && UndisturbedRun(requests, registry) && Undisturbed(inputs, registry)
    ensures var hint := HintAlong(registry, capacity, toolchain, requests, _ => false);
            var child := Run(registry, capacity, toolchain, requests);
            && hint == Keys(Held(child))
            && (key in hint <==> Open(child, capacity, key, inputs).1.HostSessionReused?)
  {
    HintIsBounded(registry, capacity, toolchain, requests);
    RunIsBounded(registry, capacity, toolchain, requests);
    OpenIsTouch(Run(registry, capacity, toolchain, requests), capacity, key, inputs);
  }
}
