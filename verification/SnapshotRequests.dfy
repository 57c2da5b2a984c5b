/** What a batch query and a clear request do to the snapshot cache, and what they reply
    (crates/lean-rs-worker-child/src/child.rs:1856-1930, 2916-2930): when the memory guard
    acts, what a lookup finds, what is left. */
module SnapshotRequests {
  import opened Prelude
  import opened SnapshotCacheKey
  import opened WorkerChildModel

  /** The request leaves sessions, anchors and imports alone; what it registers counts. */
  ghost predicate OnlyCacheMoves(s: ChildState, s': ChildState, registered: nat) {
    s' == s.(registry := s.registry + registered, snapshots := s'.snapshots, events := s'.events)
  }

  /** A failed clear of the guard fails the request and loses nothing. */
  ghost predicate RefusedByGuard(s: ChildState, s': ChildState, reply: Response, inputs: QueryInputs) {
    && reply == Error(inputs.errorCode)
    && s'.snapshots == s.snapshots && s'.events == s.events + [SnapshotsCleared(false)]
  }

  /** A working clear of the guard: no entry but possibly the one just built, no answer from an
      earlier one. */
  ghost predicate ClearedByGuard(s: ChildState, s': ChildState, reply: Response, cacheKey: Text, own: Snapshot,
                                 inputs: QueryInputs) {
    var cleared := s.events + [SnapshotsCleared(true)];
    && reply == (if inputs.lookup.Failed? then Error(inputs.lookup.code) else Answer(own))
    && (if inputs.lookup.Supported? then
          && s'.events == cleared + [SnapshotStored(own)]
          && s'.snapshots == (if cacheKey in inputs.lostAfter then map[] else map[cacheKey := own])
        else s'.events == cleared && s'.snapshots == map[])
  }

  /** No clear at all: what Lean did not lose decides. */
  ghost predicate LookedUp(s: ChildState, s': ChildState, reply: Response, cacheKey: Text, own: Snapshot,
                           inputs: QueryInputs) {
    var hit := cacheKey in s.snapshots && cacheKey !in inputs.lostBefore;
    match inputs.lookup
    case Failed(code) => reply == Error(code) && s'.events == s.events && Remain(s, s', inputs.lostBefore)
    case Unsupported => reply == Answer(own) && s'.events == s.events && Remain(s, s', inputs.lostBefore)
    case Supported =>
      if hit then
        && reply == Answer(s.snapshots[cacheKey]) && s'.events == s.events
        && Remain(s, s', inputs.lostBefore + inputs.lostAfter)
      else
        && reply == Answer(own) && s'.events == s.events + [SnapshotStored(own)]
        && RemainBeside(s, s', inputs.lostBefore, cacheKey, own, inputs.lostAfter)
  }

  /** Exactly the entries that are not lost are left, unchanged. */
  ghost predicate Remain(s: ChildState, s': ChildState, lost: set<Text>) {
    && (forall k :: k in s'.snapshots <==> k in s.snapshots && k !in lost)
    && (forall k :: k in s'.snapshots ==> s'.snapshots[k] == s.snapshots[k])
  }

  /** The same, with an entry under `cacheKey` stored in between. */
  ghost predicate RemainBeside(s: ChildState, s': ChildState, lostBefore: set<Text>, cacheKey: Text, own: Snapshot,
                               lostAfter: set<Text>) {
    && (forall k :: k in s'.snapshots <==> ((k in s.snapshots && k !in lostBefore) || k == cacheKey) && k !in lostAfter)
    && (forall k :: k in s'.snapshots ==> s'.snapshots[k] == if k == cacheKey then own else s.snapshots[k])
  }

  lemma LookUpExactly(s: ChildState, cacheKey: Text, own: Snapshot, inputs: QueryInputs)
    ensures LookedUp(s, LookUp(s, cacheKey, own, inputs).0, LookUp(s, cacheKey, own, inputs).1, cacheKey, own, inputs)
  {
  }

  /** The guard acts: it is on, the resident set is known, and reaches it. */
  ghost predicate GuardActs(inputs: QueryInputs) {
    0 < inputs.guardKib && inputs.rssKib.Some? && inputs.guardKib <= inputs.rssKib.value
  }

  ghost predicate QueriedExactly(s: ChildState, s': ChildState, reply: Response, cacheKey: Text, own: Snapshot,
                                 inputs: QueryInputs) {
    if !GuardActs(inputs) then LookedUp(s, s', reply, cacheKey, own, inputs)
    else if inputs.guardClear then ClearedByGuard(s, s', reply, cacheKey, own, inputs)
    else RefusedByGuard(s, s', reply, inputs)
  }

  lemma QueryExactly(s: ChildState, cacheKey: Text, session: Session, query: ModuleQuery, inputs: QueryInputs)
    ensures var (s', reply) := Query(s, cacheKey, session, query, inputs);
            && OnlyCacheMoves(s, s', 0)
            && QueriedExactly(s, s', reply, cacheKey, Snapshot(session.env, query), inputs)
  {
    var own := Snapshot(session.env, query);
    LookUpExactly(s, cacheKey, own, inputs);
    LookUpExactly(ClearSnapshots(s, true), cacheKey, own, inputs);
  }

  /** A query on a session, exactly: with a guard of at least 1 KiB and a resident set known
      to be that large or larger, a failed clear refuses it and a working one empties the
      cache first; otherwise nothing is cleared. */
  lemma QueryRequestExactly(s: ChildState, capacity: nat, toolchain: Toolchain, query: ModuleQuery, inputs: QueryInputs)
    requires capacity >= 1 && s.hostSession.Some?
    ensures var (s', reply) := Serve(s, capacity, toolchain, ProcessModuleQueryBatch(query, inputs));
            var session := s.hostSession.value;
            var cacheKey, own := QueryKey(toolchain, session.key, query), Snapshot(session.env, query);
            && OnlyCacheMoves(s, s', inputs.registered)
            && (!GuardActs(inputs) ==> LookedUp(s, s', reply, cacheKey, own, inputs))
            && (GuardActs(inputs) && inputs.guardClear ==> ClearedByGuard(s, s', reply, cacheKey, own, inputs))
            && (GuardActs(inputs) && !inputs.guardClear ==> RefusedByGuard(s, s', reply, inputs))
  {
    var session := s.hostSession.value;
    QueryExactly(Register(s, inputs.registered), QueryKey(toolchain, session.key, query), session, query, inputs);
  }

  /** A clear request on a session: the cache is empty exactly when the clear works or there was
      nothing in it, and the reply says which. */
  lemma ClearRequestExactly(s: ChildState, capacity: nat, toolchain: Toolchain, ok: bool, registered: nat,
                            clearError: string)
    requires capacity >= 1 && s.hostSession.Some?
    ensures var (s', reply) := Serve(s, capacity, toolchain, ClearModuleSnapshotCache(ok, registered, clearError));
            && OnlyCacheMoves(s, s', registered) && s'.events == s.events + [SnapshotsCleared(ok)]
            && (ok ==> reply == SnapshotCacheCleared && s'.snapshots == map[])
            && (!ok ==> reply == Error(clearError) && s'.snapshots == s.snapshots)
  {
  }
}
