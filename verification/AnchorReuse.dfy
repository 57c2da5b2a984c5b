/** At most one leaked anchor per project and mode: an anchor, once built, is kept for the life
    of the child, and every later import of its project and mode goes through it
    (crates/lean-rs-worker-child/src/child.rs:816-828, 1119-1129). */
module AnchorReuse {
  import opened Prelude
  import opened SnapshotCacheKey
  import opened WorkerChildModel
  import opened PoolStructure
  import opened PoolReplies

  /** The open finds no session with its key. */
  ghost predicate Misses(s: ChildState, key: HostSessionKey, inputs: OpenInputs) {
    !IsHeld(Sweep(s, inputs.firstRead, inputs.firstClear), key)
  }

  /** The request is an open of that project and mode that finds no session and gets an anchor
      from Lean if it asks for one. */
  ghost predicate MissesAndBuilds(s: ChildState, request: Request, anchor: HostAnchor) {
    && request.OpenHostSession? && request.open.anchorBuilt
    && request.key.projectRoot == anchor.projectRoot && request.key.mode == anchor.mode
    && Misses(s, request.key, request.open)
  }

  lemma ImportKeepsAnchors(s: ChildState, key: HostSessionKey, inputs: OpenInputs)
    ensures Import(s, key, inputs).0.anchors == s.anchors
  {
  }

  lemma MissAnchors(s: ChildState, capacity: nat, key: HostSessionKey, inputs: OpenInputs)
    requires capacity >= 1 && !IsHeld(s, key)
    ensures var anchor := HostAnchor(key.projectRoot, key.mode);
            OpenSwept(s, capacity, key, inputs).0.anchors
            == s.anchors + if anchor !in s.anchors && inputs.anchorBuilt then [anchor] else []
  {
    IsHeldByParts(s, key);
    EvictToFitHolds(Park(s), capacity, inputs.evictClear);
    ImportKeepsAnchors(FindOrBuildAnchor(EvictToFit(Park(s), capacity, inputs.evictClear), key, inputs).0, key, inputs);
  }

  lemma OpenAnchors(s: ChildState, capacity: nat, key: HostSessionKey, inputs: OpenInputs)
    requires capacity >= 1
    ensures var anchor := HostAnchor(key.projectRoot, key.mode);
            Open(s, capacity, key, inputs).0.anchors
            == s.anchors + if Misses(s, key, inputs) && anchor !in s.anchors && inputs.anchorBuilt then [anchor] else []
  {
    var swept := Sweep(s, inputs.firstRead, inputs.firstClear);
    SweepHolds(s, inputs.firstRead, inputs.firstClear);
    IsHeldByParts(swept, key);
    if Misses(s, key, inputs) { MissAnchors(swept, capacity, key, inputs); }
  }

  lemma ServeKeepsAnchors(s: ChildState, capacity: nat, toolchain: Toolchain, request: Request)
    requires capacity >= 1
    ensures s.anchors <= Serve(s, capacity, toolchain, request).0.anchors
  {
    if request.OpenHostSession? { OpenAnchors(s, capacity, request.key, request.open); }
  }

  /** After a request the anchors are the earlier ones and the one of an open that missed and
      built it. */
  lemma ServeAnchors(s: ChildState, capacity: nat, toolchain: Toolchain, request: Request, anchor: HostAnchor)
    requires capacity >= 1
    ensures anchor in Serve(s, capacity, toolchain, request).0.anchors
            <==> anchor in s.anchors || MissesAndBuilds(s, request, anchor)
  {
    if request.OpenHostSession? { OpenAnchors(s, capacity, request.key, request.open); }
  }

  /** Anchors never shrink. */
  lemma {:induction false} AnchorsNeverShrink(registry: nat, capacity: nat, toolchain: Toolchain,
                                              requests: seq<Request>, i: nat)
    requires capacity >= 1 && i <= |requests|
    ensures Run(registry, capacity, toolchain, requests[..i]).anchors
         <= Run(registry, capacity, toolchain, requests).anchors
    decreases |requests|
  {
    if i == |requests| {
      assert requests[..i] == requests;
    } else {
      var n := |requests| - 1;
      assert requests[..n][..i] == requests[..i];
      AnchorsNeverShrink(registry, capacity, toolchain, requests[..n], i);
      ServeKeepsAnchors(Run(registry, capacity, toolchain, requests[..n]), capacity, toolchain, requests[n]);
    }
  }

  /** Some open of the run missed and built this anchor. */
  ghost predicate WasBuilt(registry: nat, capacity: nat, toolchain: Toolchain, requests: seq<Request>, anchor: HostAnchor)
    requires capacity >= 1
  {
    exists i :: 0 <= i < |requests| && BuiltAt(registry, capacity, toolchain, requests, i, anchor)
  }

  ghost predicate BuiltAt(registry: nat, capacity: nat, toolchain: Toolchain, requests: seq<Request>, i: nat,
                          anchor: HostAnchor)
    requires capacity >= 1 && i < |requests|
  {
    MissesAndBuilds(Run(registry, capacity, toolchain, requests[..i]), requests[i], anchor)
  }

  lemma BuiltInFront(registry: nat, capacity: nat, toolchain: Toolchain, requests: seq<Request>, n: nat, i: nat,
                     anchor: HostAnchor)
    requires capacity >= 1 && i < n <= |requests|
    ensures BuiltAt(registry, capacity, toolchain, requests[..n], i, anchor)
         == BuiltAt(registry, capacity, toolchain, requests, i, anchor)
  {
    assert requests[..n][..i] == requests[..i];
  }

  lemma WasBuiltAppend(registry: nat, capacity: nat, toolchain: Toolchain, requests: seq<Request>, anchor: HostAnchor)
    requires capacity >= 1 && requests != []
    ensures var n := |requests| - 1;
            WasBuilt(registry, capacity, toolchain, requests, anchor) <==>
              WasBuilt(registry, capacity, toolchain, requests[..n], anchor)
              || BuiltAt(registry, capacity, toolchain, requests, n, anchor)
  {
    var n := |requests| - 1;
    forall i | 0 <= i < n
      ensures BuiltAt(registry, capacity, toolchain, requests[..n], i, anchor)
           == BuiltAt(registry, capacity, toolchain, requests, i, anchor)
    {
      BuiltInFront(registry, capacity, toolchain, requests, n, i, anchor);
    }
  }

  /** Over every run: a project and mode has an anchor if and only if some open so far missed
      its key and had the anchor built. */
  lemma {:induction false} AnchorsExactly(registry: nat, capacity: nat, toolchain: Toolchain, requests: seq<Request>,
                                          anchor: HostAnchor)
    requires capacity >= 1
    ensures anchor in Run(registry, capacity, toolchain, requests).anchors
            <==> WasBuilt(registry, capacity, toolchain, requests, anchor)
  {
    if requests != [] {
      var n := |requests| - 1;
      AnchorsExactly(registry, capacity, toolchain, requests[..n], anchor);
      ServeAnchors(Run(registry, capacity, toolchain, requests[..n]), capacity, toolchain, requests[n], anchor);
      WasBuiltAppend(registry, capacity, toolchain, requests, anchor);
    }
  }

  lemma OpenedHasAnchor(s: ChildState, capacity: nat, key: HostSessionKey, inputs: OpenInputs)
    requires capacity >= 1 && Open(s, capacity, key, inputs).1.HostSessionOpened?
    ensures HostAnchor(key.projectRoot, key.mode) in Open(s, capacity, key, inputs).0.anchors
  {
    ReuseExactly(s, capacity, key, inputs);
    MissExactly(s, capacity, key, inputs);
    OpenAnchors(s, capacity, key, inputs);
  }

  /** Once `HostSessionOpened` has been replied for a project and mode, its anchor is there for
      good. */
  lemma OpenedKeepsAnchor(registry: nat, capacity: nat, toolchain: Toolchain, requests: seq<Request>, i: nat)
    requires capacity >= 1 && i < |requests| && requests[i].OpenHostSession?
    requires ReplyAt(registry, capacity, toolchain, requests, i).HostSessionOpened?
    ensures HostAnchor(requests[i].key.projectRoot, requests[i].key.mode)
            in Run(registry, capacity, toolchain, requests).anchors
  {
    OpenedHasAnchor(Run(registry, capacity, toolchain, requests[..i]), capacity, requests[i].key, requests[i].open);
    assert requests[..i + 1][..i] == requests[..i];
    AnchorsNeverShrink(registry, capacity, toolchain, requests, i + 1);
  }

  /** From then on a miss on that project and mode, for whatever imports, opens if and only if
      Lean's import succeeds, whether or not another anchor could be built, and builds none. */
  lemma LaterMissNeedsNoAnchor(registry: nat, capacity: nat, toolchain: Toolchain, requests: seq<Request>, i: nat,
                               key: HostSessionKey, inputs: OpenInputs)
    requires capacity >= 1 && i < |requests| && requests[i].OpenHostSession?
    requires ReplyAt(registry, capacity, toolchain, requests, i).HostSessionOpened?
    requires key.projectRoot == requests[i].key.projectRoot && key.mode == requests[i].key.mode
    requires Misses(Run(registry, capacity, toolchain, requests), key, inputs)
    ensures var s := Run(registry, capacity, toolchain, requests);
            var (s', reply) := Open(s, capacity, key, inputs);
            && (reply.HostSessionOpened? <==> inputs.imported)
            && (!inputs.imported ==> reply == Error(inputs.errorCode))
            && s'.anchors == s.anchors
  {
    OpenedKeepsAnchor(registry, capacity, toolchain, requests, i);
    MissExactly(Run(registry, capacity, toolchain, requests), capacity, key, inputs);
    OpenAnchors(Run(registry, capacity, toolchain, requests), capacity, key, inputs);
  }

  // ----- how many are leaked -----

  /** The projects and modes a run opens. */
  function AnchorsAskedFor(requests: seq<Request>): set<HostAnchor> {
    set i | 0 <= i < |requests| && requests[i].OpenHostSession? ::
      HostAnchor(requests[i].key.projectRoot, requests[i].key.mode)
  }

  lemma {:induction false} DistinctWithin<T>(xs: seq<T>, within: set<T>)
    requires NoDuplicates(xs) && forall x :: x in xs ==> x in within
    ensures |xs| <= |within|
    decreases |xs|
  {
    if xs != [] {
      var rest := xs[1..];
      assert xs[0] in within;
      forall x | x in rest ensures x in within - {xs[0]} {
        assert x in xs;
      }
      DistinctWithin(rest, within - {xs[0]});
    }
  }

  /** The log of every run builds no anchor twice, and at most one for each project and mode the
      run opens: what the child leaks is bounded by that, however many sessions it imports. */
  lemma BuildsAreBounded(registry: nat, capacity: nat, toolchain: Toolchain, requests: seq<Request>)
    requires capacity >= 1
    ensures var built := ReadLog(Run(registry, capacity, toolchain, requests).events).built;
            && NoDuplicates(built) && |built| <= |AnchorsAskedFor(requests)|
            && forall anchor :: anchor in built <==> WasBuilt(registry, capacity, toolchain, requests, anchor)
  {
    var built := ReadLog(Run(registry, capacity, toolchain, requests).events).built;
    EveryRunKeepsPool(registry, capacity, toolchain, requests);
    forall anchor ensures anchor in built <==> WasBuilt(registry, capacity, toolchain, requests, anchor) {
      AnchorsExactly(registry, capacity, toolchain, requests, anchor);
    }
    forall anchor | anchor in built ensures anchor in AnchorsAskedFor(requests) {
      var i :| 0 <= i < |requests| && BuiltAt(registry, capacity, toolchain, requests, i, anchor);
    }
    DistinctWithin(built, AnchorsAskedFor(requests));
  }
}
