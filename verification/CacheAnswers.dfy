/** When the snapshot cache is right, exactly: for any sessions and any queries, every run over
    them whose clears work is answered as without a cache if and only if no two of the queries
    read alike (crates/lean-rs-worker-child/src/child.rs:1856-1952, 2588-2668). */
module CacheAnswers {
  import opened WorkerChildModel
  import opened QueryScope
  import opened SnapshotPinning
  import opened SnapshotAgreement
  import opened CacheTransparency
  import opened SnapshotHazards

  /** Every answer in every run over the scope whose clears work is the current environment's own. */
  ghost predicate AlwaysOwn(scope: Scope, registry: nat, capacity: nat)
    requires capacity >= 1
  {
    forall requests: seq<Request>, i | OrderlyRun(scope, requests) && 0 <= i < |requests| && requests[i].ProcessModuleQueryBatch? ::
      AnsweredOwn(registry, capacity, scope.toolchain, requests, i)
  }

  /** Every reply in every such run is that of a child without a cache. */
  ghost predicate AlwaysTransparent(scope: Scope, registry: nat, capacity: nat)
    requires capacity >= 1
  {
    forall requests: seq<Request>, i | OrderlyRun(scope, requests) && 0 <= i < |requests| ::
      ReplyAt(registry, capacity, scope.toolchain, requests, i)
      == ReplyAt(registry, capacity, scope.toolchain, WithoutCache(requests), i)
  }

  lemma OrderlyPieces(scope: Scope, requests: seq<Request>)
    requires forall i :: 0 <= i < |requests| ==> InScope(scope, requests[i]) && ClearsWork(requests[i])
    ensures OrderlyRun(scope, requests)
  {
  }

  lemma CollisionAcrossSessions(scope: Scope, registry: nat, capacity: nat, a: HostSessionKey, p: ModuleQuery,
                                b: HostSessionKey, q: ModuleQuery) returns (requests: seq<Request>)
    requires capacity >= 2 && a != b
    requires a in scope.keys && b in scope.keys && p in scope.queries && q in scope.queries
    requires QueryKey(scope.toolchain, a, p) == QueryKey(scope.toolchain, b, q)
    ensures OrderlyRun(scope, requests) && |requests| == 4 && requests[3].ProcessModuleQueryBatch?
    ensures !AnsweredOwn(registry, capacity, scope.toolchain, requests, 3)
  {
    var inputs := PlainOpen(registry);
    requests := [OpenHostSession(a, inputs), ProcessModuleQueryBatch(p, QUIET),
                 OpenHostSession(b, inputs), ProcessModuleQueryBatch(q, QUIET)];
    OrderlyPieces(scope, requests);
    SharedKeyGoesWrong(registry, capacity, scope.toolchain, a, p, b, q, inputs, requests);
  }

  lemma CollisionWithinASession(scope: Scope, registry: nat, capacity: nat, a: HostSessionKey, p: ModuleQuery,
                                q: ModuleQuery) returns (requests: seq<Request>)
    requires capacity >= 1 && p != q
    requires a in scope.keys && p in scope.queries && q in scope.queries
    requires QueryKey(scope.toolchain, a, p) == QueryKey(scope.toolchain, a, q)
    ensures OrderlyRun(scope, requests) && |requests| == 3 && requests[2].ProcessModuleQueryBatch?
    ensures !AnsweredOwn(registry, capacity, scope.toolchain, requests, 2)
  {
    var inputs := PlainOpen(registry);
    requests := [OpenHostSession(a, inputs), ProcessModuleQueryBatch(p, QUIET), ProcessModuleQueryBatch(q, QUIET)];
    OrderlyPieces(scope, requests);
    SameSessionGoesWrong(registry, capacity, scope.toolchain, a, p, q, inputs, requests);
  }

  lemma CollisionsGoWrong(scope: Scope, registry: nat, capacity: nat)
    requires capacity >= 1 && AlwaysOwn(scope, registry, capacity)
    ensures Separated(scope, capacity)
  {
    forall a, b, p, q |
      && a in scope.keys && b in scope.keys && p in scope.queries && q in scope.queries
      && (capacity >= 2 || a == b)
      && QueryKey(scope.toolchain, a, p) == QueryKey(scope.toolchain, b, q)
      ensures a == b && p == q
    {
      if a != b {
        var requests := CollisionAcrossSessions(scope, registry, capacity, a, p, b, q);
        assert false;
      } else if p != q {
        var requests := CollisionWithinASession(scope, registry, capacity, a, p, q);
        assert false;
      }
    }
  }

  /** For any sessions, any queries and any number of slots: every answer in every run over them
      whose clears work is the current environment's own if and only if no two of the queries
      read alike, cut at every NUL; with a single slot, no two queries of one session. */
  lemma AnswersAreOwnExactly(scope: Scope, registry: nat, capacity: nat)
    requires capacity >= 1
    ensures AlwaysOwn(scope, registry, capacity) <==> NoTwoAlike(scope, capacity)
  {
    NoTwoAlikeIsSeparated(scope, capacity);
    if Separated(scope, capacity) {
      forall requests: seq<Request>, i | OrderlyRun(scope, requests) && 0 <= i < |requests| && requests[i].ProcessModuleQueryBatch?
        ensures AnsweredOwn(registry, capacity, scope.toolchain, requests, i)
      {
        RunsWithClearsAreClean(registry, capacity, scope, requests);
        AnswersComeFromTheCurrentSession(registry, capacity, scope, requests, i);
      }
    }
    if AlwaysOwn(scope, registry, capacity) { CollisionsGoWrong(scope, registry, capacity); }
  }

  /** And exactly then the cache changes no reply of any such run. */
  lemma CacheIsTransparentExactly(scope: Scope, registry: nat, capacity: nat)
    requires capacity >= 1
    ensures AlwaysTransparent(scope, registry, capacity) <==> NoTwoAlike(scope, capacity)
  {
    AnswersAreOwnExactly(scope, registry, capacity);
    forall requests: seq<Request>, i | OrderlyRun(scope, requests) && 0 <= i < |requests|
      ensures ReplyAt(registry, capacity, scope.toolchain, requests, i)
              == ReplyAt(registry, capacity, scope.toolchain, WithoutCache(requests), i)
              <==> (requests[i].ProcessModuleQueryBatch? ==>
                      AnsweredOwn(registry, capacity, scope.toolchain, requests, i))
    {
      ReplyIsTransparentExactly(registry, capacity, scope.toolchain, requests, i);
    }
  }
}
