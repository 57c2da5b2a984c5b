# lean-rs: the worker child's session pool and the Lean object ABI, in Dafny

lean-rs hosts Lean environments in a child process. The child keeps a bounded pool of
imported environments, a process-global cache of module snapshots keyed by a hash, and a
process-global registry of environment extensions that imports can move; the parent drives
it over a framed protocol and retries once when a session has gone missing. Below that, Rust
mirrors Lean's inline C functions on reference counts, object memory and tagged integers.

This project models those parts and proves what their comments and documentation promise.

**The session pool.** `WorkerChildModel` gives one step per request as a function of the
state; everything Lean decides (reads, clears, builds, imports, where the registry stands,
which cache entries vanish) is an input, so statements hold for all of it.
`WorkerChildProcess` is the mutable child, each method proved against its step.
`PoolStructure` proves what every run keeps, `PoolReplies` what each reply means and how far
the current session can be behind the registry, `AnchorReuse` that a project and mode is
anchored once and for good, `LeastRecentlyUsed` and `PoolIsLru` that the pool is LRU and what
follows from that. `SnapshotRequests` gives the exact outcome of every query and clear. `SnapshotCacheKey`, `ModeEncoding` and
`CacheKeyCollisions` say which inputs share a cache key, `QueryScope` what it means that no
two of the queries in use do. `SnapshotPinning` proves what the cache holds,
`SnapshotAgreement` when its answers are the current environment's own, `CacheTransparency`
that it changes a reply exactly when they are not; `SnapshotHazards` gives runs that go wrong
and `CacheAnswers` the exact condition over all runs. `ParentRetry` is the parent's wrapper
composed with a child that may be replaced between any two frames, and `StreamRun` the row
callback.

**The object ABI.** `RefCounts` ties every count to the number of owners over a heap of
objects that own one another; `RefCountRace` interleaves threads; `BitMasks` and
`ObjectLayout` treat object memory byte by byte; `ScalarWidening` covers tagged integers on
32- and 64-bit hosts.

**Smaller codecs.** `Utf8Bounding`, `BinaryFrame`, `Batching` and `DigestPreimage`, over
`ByteOrder` and `Prelude`.

`dafny verify dfyconfig.toml` checks all of it.

## Where the code and its documentation differ

The model follows the code.

- When the epoch read after a successful import fails, the sweep drops every session, the
  one just imported included, and `HostSessionOpened` is replied with nothing held; the
  comment at crates/lean-rs-worker-child/src/child.rs:1136-1141 says that session cannot be
  dropped. `PoolReplies.MissExactly` and `ParentRetry.SessionMissingExactly` give the exact
  conditions.
- The supervisor takes a consecutive identical reopen to be unable to miss
  (crates/lean-rs-worker-parent/src/supervisor.rs:2062-2067). `PoolReplies.ReopenReuses`
  and `PoolReplies.ReopenAfterRequests` show it misses exactly when an epoch read fails or a
  request in between registers an extension.
- The results of the clears before a drop are ignored. Dropping without a clear never makes
  an answer wrong by itself; importing a key whose entries survived does.
  `SnapshotAgreement.OpenAnswersExactly` and `SnapshotAgreement.RunAnswersExactly` give the
  exact condition, and `SnapshotHazards.FailedClearsGoWrong` a run that goes wrong.
- The cache key is injective on texts without NULs only. `CacheKeyCollisions` says exactly
  which inputs share a key, `CacheAnswers.AnswersAreOwnExactly` over which sessions and
  queries every answer is right all the same, and `SnapshotHazards.NulInASourceGoesWrong` is a
  run in which a source with NULs makes another session answer.
- The comment at crates/lean-rs-worker-child/src/child.rs:1136-1140 takes a session import to
  be the only moment the registry moves, while a query of a `module` file imports with
  initializers enabled
  (crates/lean-rs-host/shims/lean-rs-host-shims/LeanRsHostShims/InfoTree.lean:1874-1879).
  Every request can therefore register here, and
  `PoolReplies.CurrentIsBehindByRegistrations` says what that does.
- `lean_ctor_get_usize` and `lean_ctor_set_usize` count slots from the first object field
  (crates/lean-rs-sys/src/ctor.rs:280-287, 380-384).
  `ObjectLayout.UsizeSlotsSpareFieldsExactly` says when that stays clear of the fields.
- `bound_bootstrap_text` is meant to cut at the limit, but its loop does not end when a
  character straddles byte 1024: `Utf8Bounding.BoundBootstrapText`.

## Model

| member | source | states |
|---|---|---|
| `WorkerChildModel.SessionPoolCapacity` | crates/lean-rs-worker-child/src/child.rs:100-106 | The pool capacity is the configured number, but at least 1, and 4 when nothing is configured. |
| `WorkerChildModel.Position` | crates/lean-rs-worker-child/src/child.rs:1082-1082 | The scan for a parked session finds one with the key, and reports none only when no parked session has the key. |
| `WorkerChildProcess.WorkerChild.constructor` | crates/lean-rs-worker-child/src/child.rs:335-355 | A fresh child holds nothing, has the clamped capacity, and satisfies the pool invariant. |
| `WorkerChildProcess.WorkerChild.EvictStaleHostSessions` | crates/lean-rs-worker-child/src/child.rs:1179-1204 | Proved against `Sweep`: drops, in order and after one clear, exactly the sessions whose stamp is not the one read; with nothing stale it does nothing at all. |
| `WorkerChildProcess.WorkerChild.EvictLeastRecentlyUsed` | crates/lean-rs-worker-child/src/child.rs:1097-1117 | The eviction loop, proved against `EvictToFit`; it terminates and never removes from an empty list because the capacity is at least 1. |
| `WorkerChildProcess.WorkerChild.ImportSession` | crates/lean-rs-worker-child/src/child.rs:1130-1147 | Import, stamp, install and sweep, or the error with the registry possibly moved. |
| `WorkerChildProcess.WorkerChild.OpenThroughAnchor` | crates/lean-rs-worker-child/src/child.rs:1119-1130 | Reuses the anchor of the project and mode, or builds, logs and keeps one, and imports; a failed build leaves the current slot empty. What keeping means over runs is in AnchorReuse. |
| `WorkerChildProcess.WorkerChild.OpenAfterSweep` | crates/lean-rs-worker-child/src/child.rs:1071-1147 | The three ways an open goes on after its first sweep: current hit, pooled hit with swap, miss. |
| `WorkerChildProcess.WorkerChild.OpenOrReuseHostSession` | crates/lean-rs-worker-child/src/child.rs:1051-1147 | The in-place open computes `Open` of the old state, reply included, and keeps the pool invariant. |
| `WorkerChildProcess.WorkerChild.ProcessModuleQueryBatch` | crates/lean-rs-worker-child/src/child.rs:1856-1917 | Guard, lookup by key before anything else, store or uncached fallback, with entries lost by Lean before and after; `SnapshotRequests.QueryRequestExactly` says what comes of it. |
| `WorkerChildProcess.WorkerChild.ServeRequest` | crates/lean-rs-worker-child/src/child.rs:384-714 | One turn of the loop computes `Serve` of the old state and keeps the pool invariant for every request and every answer of Lean. |
| `PoolStructure.SweepHolds` | crates/lean-rs-worker-child/src/child.rs:1179-1204 | After a sweep the held sessions are exactly the ones carrying the epoch that was read, in their old order; registry, imports and anchors are untouched. |
| `PoolStructure.EvictToFitHolds` | crates/lean-rs-worker-child/src/child.rs:1095-1117 | Eviction leaves exactly the most recent `capacity - 1` parked sessions and changes nothing else but the cache. |
| `PoolStructure.SwapHolds` | crates/lean-rs-worker-child/src/child.rs:1082-1090 | A pooled hit permutes the held sessions: none lost, none made, keys still distinct. |
| `PoolStructure.ServeKeepsPool` | crates/lean-rs-worker-child/src/child.rs:384-714 | Every request, failures included, keeps the pool invariant. |
| `PoolStructure.LedgerMeansPeak` | crates/lean-rs-worker-child/src/child.rs:1043-1050 | The number of live environments at any point of a log is bounded by the peak the ledger records. |
| `PoolStructure.LedgerMeansOrder` | crates/lean-rs-worker-child/src/child.rs:1043-1046 | An orderly ledger means that going back from any drop one meets a clear before anything but drops. |
| `PoolStructure.EveryRunKeepsPool` | crates/lean-rs-worker-child/src/child.rs:1024-1147 | For every run: held keys distinct, at most `capacity - 1` parked, never more live environments than the capacity after any single event, sessions opened = held + dropped, every drop preceded by a clear, the anchors exactly those built, none twice. |
| `PoolReplies.ReuseExactly` | crates/lean-rs-worker-child/src/child.rs:1066-1090 | An open reuses if and only if a session with the key survives the first sweep, and then serves that session without importing or losing another. |
| `PoolReplies.MissExactly` | crates/lean-rs-worker-child/src/child.rs:1092-1147 | A miss imports if and only if the anchor exists or builds and the import succeeds; the new session is current exactly when the last epoch read succeeds; otherwise the most recent `capacity - 1` sessions survive. |
| `PoolReplies.OpenLeavesFresh` | crates/lean-rs-worker-child/src/child.rs:1051-1147 | After any open the current session carries the live epoch; after a successful one every held session does. |
| `PoolReplies.RegistryAfterOpen` | crates/lean-rs-worker-child/src/child.rs:1051-1147 | A reuse leaves the registry alone; otherwise it stands where the last thing Lean was asked for, anchor or import, failed or not, has left it. |
| `PoolReplies.CurrentIsBehindByRegistrations` | crates/lean-rs-worker-child/src/child.rs:1149-1204 | At every request of every run, whichever builds, imports and epoch reads failed, the current session is behind the registry by exactly the registrations that requests other than opens made since the last open. |
| `PoolReplies.NoRunServesAStaleSession` | crates/lean-rs-worker-child/src/child.rs:1149-1204 | A present current session has the live epoch if and only if no request other than an open has registered anything since the last open. |
| `PoolReplies.OnlyOpensRegister` | crates/lean-rs-worker-child/src/child.rs:1134-1141 | Under the assumption of the comment, that only a session import registers, no run has a stale current session. |
| `PoolReplies.RefusalsChangeNothing` | crates/lean-rs-worker-child/src/child.rs:384-714 | Health is answered in any state; a request refused for want of a session replies session-missing; neither changes anything. |
| `PoolReplies.CommandsRunOnFreshSessions` | crates/lean-rs-worker-child/src/child.rs:384-714 | Queries, clears and commands are refused without a current session and otherwise dispatched to one that is fresh if and only if nothing was registered since the last open; a command reply names that session. |
| `PoolReplies.ReopenReuses` | crates/lean-rs-worker-parent/src/supervisor.rs:2046-2069 | An immediate identical reopen is answered by reuse if and only if the epoch reads around it succeed: the exact condition under which the supervisor may conclude that it cannot miss. |
| `PoolReplies.ReopenAfterRequests` | crates/lean-rs-worker-parent/src/supervisor.rs:2046-2069 | The same with any requests other than opens in between: reuse if and only if, besides, none of them registers anything. |
| `AnchorReuse.AnchorsNeverShrink` | crates/lean-rs-worker-child/src/child.rs:816-828 | Over every run no anchor is ever lost: the anchors of a prefix are a prefix of the anchors. |
| `AnchorReuse.AnchorsExactly` | crates/lean-rs-worker-child/src/child.rs:1119-1129 | Over every run: a project and mode has an anchor if and only if some open so far missed its key and had the anchor built. |
| `AnchorReuse.OpenedKeepsAnchor` | crates/lean-rs-worker-child/src/child.rs:1119-1130 | Once `HostSessionOpened` has been replied for a project and mode, its anchor is there for good. |
| `AnchorReuse.LaterMissNeedsNoAnchor` | crates/lean-rs-worker-child/src/child.rs:816-828 | From then on a miss on that project and mode, for any imports, opens if and only if the import succeeds, whether or not another anchor could be built, and builds none. |
| `AnchorReuse.BuildsAreBounded` | crates/lean-rs-worker-child/src/child.rs:816-828 | The log of every run builds no anchor twice and at most one for each distinct project and mode opened, however many sessions are imported. |
| `LeastRecentlyUsed.RecencyIsRecencyOrder` | crates/lean-rs-worker-child/src/child.rs:1024-1041 | The list built by moving each used key to the back holds each key of the trace once, ordered by last use. |
| `LeastRecentlyUsed.RecencyOrderIsUnique` | crates/lean-rs-worker-child/src/child.rs:1024-1041 | There is only one such list, so it is a definition independent of how it is built. |
| `LeastRecentlyUsed.TouchOfSuffix` | crates/lean-rs-worker-child/src/child.rs:1092-1117 | Truncating before or after a use makes no difference. |
| `LeastRecentlyUsed.BoundedIsSuffix` | crates/lean-rs-worker-child/src/child.rs:1092-1117 | The bounded list after a trace is the suffix of the unbounded order of last use. |
| `LeastRecentlyUsed.MissesFallWithCapacity` | crates/lean-rs-worker-child/src/child.rs:1024-1031 | The misses of a trace never rise with the bound. |
| `LeastRecentlyUsed.MissesWhenEverythingFits` | crates/lean-rs-worker-child/src/child.rs:1024-1031 | When all distinct keys fit, the misses are the distinct keys. |
| `LeastRecentlyUsed.MissesAtCapacityOne` | crates/lean-rs-worker-child/src/child.rs:1039-1041 | At bound 1 the misses are the changes of key and the list holds the last key. |
| `PoolIsLru.OpenIsTouch` | crates/lean-rs-worker-child/src/child.rs:1051-1147 | An undisturbed open is one abstract use of its key, and replies reuse exactly when the key was held. |
| `PoolIsLru.PoolHoldsMostRecentKeys` | crates/lean-rs-worker-child/src/child.rs:1082-1117 | After every undisturbed run, parked keys followed by the current one are the last `capacity` distinct keys of the trace ordered by last use. |
| `PoolIsLru.LargerPoolsImportLess` | crates/lean-rs-worker-child/src/child.rs:1024-1031 | A larger pool holds every key a smaller one holds, so the number of imports never rises with the capacity (no Belady anomaly). |
| `PoolIsLru.OneImportPerDistinctKey` | crates/lean-rs-worker-child/src/child.rs:1030-1031 | When the distinct keys fit, the number of imports is the number of distinct keys. |
| `PoolIsLru.OneImportPerChangeAtCapacityOne` | crates/lean-rs-worker-child/src/child.rs:1039-1041 | At capacity 1 there is one import per change of key. |
| `PoolIsLru.CapacityOneIsPrePool` | crates/lean-rs-worker-child/src/child.rs:1039-1041 | At capacity 1 nothing is ever parked, and an open equals, in state, events and reply, the open of a child without a pool, whatever Lean answers. |
| `PoolIsLru.ReuseHint.NoteOpenSessionKey` | crates/lean-rs-worker-parent/src/supervisor.rs:1966-1981 | Noting a confirmed open is one abstract use of the key, by position, removal and a trimming loop. |
| `PoolIsLru.ReuseHint.NoteReply` | crates/lean-rs-worker-parent/src/supervisor.rs:2039-2106 | A confirmed open is noted; an error, a lost reply or any other response forgets everything. |
| `PoolIsLru.HintIsSuffix` | crates/lean-rs-worker-parent/src/supervisor.rs:1966-2106 | Along every run in which the registry stands still and can be read, whichever builds and imports fail and whichever replies are lost, the hint is a suffix of the keys the child holds, in its eviction order. |
| `PoolIsLru.HintNeverOverpredicts` | crates/lean-rs-worker-parent/src/supervisor.rs:1992-1998 | In such a run a hinted key is always reused. |
| `PoolIsLru.HintIsBounded` | crates/lean-rs-worker-parent/src/supervisor.rs:1966-2106 | When no build or import fails and every reply is read, the hint is the bounded list of the opened keys. |
| `PoolIsLru.HintPredictsReuse` | crates/lean-rs-worker-parent/src/supervisor.rs:1966-1998 | In such a run the hint equals the keys the child holds, so it contains a key exactly when the child will reply a reuse. |
| `ModeEncoding.EscapeIsSelfDelimiting` | crates/lean-rs-worker-protocol/src/protocol.rs:248-261 | The closing quote of a JSON string literal is found unambiguously, whatever the string and what follows. |
| `ModeEncoding.ReadUndoesEscape` | crates/lean-rs-worker-protocol/src/protocol.rs:248-261 | A reader of JSON string literals gets the text back, whatever its bytes and whatever follows the closing quote. |
| `ModeEncoding.ReadUndoesEncode` | crates/lean-rs-worker-protocol/src/protocol.rs:248-261 | A reader of the mode documents gets the mode back, in variant and in every field. |
| `ModeEncoding.EncodeModeInjective` | crates/lean-rs-worker-child/src/child.rs:2619-2631 | The wire encoding separates any two modes, in variant and in every field. |
| `ModeEncoding.EncodeModeIsNulFree` | crates/lean-rs-worker-child/src/child.rs:2619-2631 | No mode puts a NUL byte into the key preimage, whatever its fields hold. |
| `SnapshotCacheKey.FeedHasher` | crates/lean-rs-worker-child/src/child.rs:2605-2668 | The hasher updates in program order, the loop over imports included, add up to NUL-terminated segments and a 16-byte tail. |
| `SnapshotCacheKey.PreimageBytes` | crates/lean-rs-worker-child/src/child.rs:2605-2661 | The preimage text by text, from the version string to the two little-endian numbers. |
| `SnapshotCacheKey.TerminatedInjective` | crates/lean-rs-worker-child/src/child.rs:2636-2640 | A list of NUL-free texts, empty ones included, can be read back from its NUL-terminated concatenation. |
| `SnapshotCacheKey.PreimageInjective` | crates/lean-rs-worker-child/src/child.rs:2588-2668 | Equal preimages of NUL-free inputs mean equal root, mode, file, source, imports, profile, toolchain and options, for any number of imports. |
| `SnapshotCacheKey.NulInAnImportCollides` | crates/lean-rs-worker-child/src/child.rs:2636-2640 | Without the NUL-free hypothesis the key is ambiguous: an import name holding a NUL collides with two names. |
| `CacheKeyCollisions.PreimagesCollideExactly` | crates/lean-rs-worker-child/src/child.rs:2605-2668 | For all inputs: two share a key if and only if their segments, cut at every NUL, are the same and so are their numeric options. |
| `CacheKeyCollisions.ImportsCollideExactly` | crates/lean-rs-worker-child/src/child.rs:2636-2640 | Two inputs whose other fields are NUL-free, whatever their import names hold, share a key if and only if the rest agrees and the names, cut at every NUL, are the same. |
| `CacheKeyCollisions.SourcesCollideExactly` | crates/lean-rs-worker-child/src/child.rs:2634-2640 | Two inputs whose other fields are NUL-free, whatever their sources hold, share a key if and only if the rest agrees and the pieces of source, imports marker and imports run on alike. |
| `CacheKeyCollisions.ImportsExactly` | crates/lean-rs-worker-child/src/child.rs:2636-2640 | Against NUL-free inputs, with every other field NUL-free: the key belongs to no other of them if and only if no import name holds a NUL. |
| `CacheKeyCollisions.SourceExactly` | crates/lean-rs-worker-child/src/child.rs:2634-2640 | Against NUL-free inputs, with every other field NUL-free: the key belongs to no other of them if and only if the source does not go on, behind its first NUL, with the imports marker. |
| `CacheKeyCollisions.NulInASourceCollides` | crates/lean-rs-worker-child/src/child.rs:2634-2640 | The source `x` NUL `imports` NUL `y` has the key of the source `x` with the extra imports `y` and `imports`. |
| `QueryScope.AlikeExactly` | crates/lean-rs-worker-child/src/child.rs:1930-1952 | A query of one session and a query of another have one cache key if and only if their segments, cut at every NUL, and their numeric options agree. |
| `QueryScope.QueryKeyReads` | crates/lean-rs-worker-child/src/child.rs:1930-1952 | Project, mode, imports and profile come from the session, source and options from the query, and the file label stands for the file. |
| `QueryScope.NulFreeScopeIsSeparated` | crates/lean-rs-worker-child/src/child.rs:2588-2668 | Among all sessions and queries whose texts hold no NUL, no two different ones share a key. |
| `SnapshotRequests.QueryRequestExactly` | crates/lean-rs-worker-child/src/child.rs:1856-1930 | With a guard of at least 1 KiB and a resident set known to reach it, a failed clear refuses the query and loses nothing, and a working one leaves no entry but possibly the one just built and no answer from an older one; otherwise nothing is cleared, and reply, stored entry and remaining entries are given for a failed, unsupported, hit or missed lookup. |
| `SnapshotRequests.ClearRequestExactly` | crates/lean-rs-worker-child/src/child.rs:705-714 | After a clear that works the cache is empty and the reply says so; after one that fails it is unchanged and the error is replied. |
| `SnapshotPinning.RunKeepsCache` | crates/lean-rs-worker-child/src/child.rs:1097-1116 | With clears that work, every cache entry of every run, whatever its texts hold, was built by a session that is still held and lies under that session's own key. |
| `SnapshotPinning.HitIsRecomputation` | crates/lean-rs-worker-child/src/child.rs:1930-1952 | In such a run, when no two queries share a key, an entry under the current session's key is the snapshot that session would build. |
| `SnapshotPinning.SweepKeepsEntriesExactly` | crates/lean-rs-worker-child/src/child.rs:1179-1204 | A sweep leaves no snapshot of a dropped environment behind if and only if its clear succeeds or no stale session has an entry. |
| `SnapshotPinning.EvictionKeepsEntriesExactly` | crates/lean-rs-worker-child/src/child.rs:1097-1116 | The same for capacity eviction: if and only if its clears succeed or no evicted session has an entry. |
| `SnapshotAgreement.InstallExactly` | crates/lean-rs-worker-child/src/child.rs:1130-1134 | A new environment answers from its own entries if and only if no entry lies under its key yet. |
| `SnapshotAgreement.OpenKeepsAnswersExactly` | crates/lean-rs-worker-child/src/child.rs:1051-1147 | Whatever clears fail, an open keeps every held session answering from its own entries if and only if it does not import a key that still has entries. |
| `SnapshotAgreement.EveryAnswerIsOwnExactly` | crates/lean-rs-worker-child/src/child.rs:1856-1917 | Every query is answered by the current environment if and only if what lies under its keys is its own. |
| `SnapshotAgreement.OpenAnswersExactly` | crates/lean-rs-worker-child/src/child.rs:1051-1147 | After an open every query is answered by the environment asked for if and only if the open did not import a key that still had entries. |
| `SnapshotAgreement.RunAnswersExactly` | crates/lean-rs-worker-child/src/child.rs:1097-1147 | For any sessions and queries no two of which share a key: in every run over them every held session answers from its own entries at every point if and only if no open imports a key that still has entries. |
| `SnapshotAgreement.AnswersComeFromTheCurrentSession` | crates/lean-rs-worker-child/src/child.rs:1856-1917 | Over every such run, across opens, swaps, evictions, sweeps, guard clears and arbitrary losses, an answered query is answered from the current environment. |
| `SnapshotAgreement.RunsWithClearsAreClean` | crates/lean-rs-worker-child/src/child.rs:1097-1116 | Clears that succeed before every drop are enough: no open then imports a key that still has entries. |
| `CacheTransparency.ReplyIsTransparentExactly` | crates/lean-rs-worker-child/src/child.rs:1856-1952 | In every run whatsoever, a reply equals that of a child that never caches if and only if it is not an answer from another environment or query. |
| `CacheTransparency.CacheIsTransparent` | crates/lean-rs-worker-child/src/child.rs:1856-1952 | Reply by reply, a run that imports no key with leftovers, over queries no two of which share a key, equals the run of a child that never caches. |
| `CacheTransparency.CacheWithClearsIsTransparent` | crates/lean-rs-worker-child/src/child.rs:1097-1116 | So does every such run whose clears succeed. |
| `CacheTransparency.NulFreeRunAnswersExactly` | crates/lean-rs-worker-child/src/child.rs:1097-1147 | The run theorem for texts without NULs: own entries throughout if and only if no open imports a key that still has entries. |
| `CacheTransparency.NulFreeCacheIsTransparent` | crates/lean-rs-worker-child/src/child.rs:2588-2668 | With texts without NULs the cache changes no reply of a run that is clean or whose clears succeed. |
| `CacheTransparency.RunWithoutTwoAlikeIsTransparent` | crates/lean-rs-worker-child/src/child.rs:2588-2668 | Nor of a run with working clears no two of whose own queries read alike, whatever bytes its texts hold. |
| `CacheAnswers.AnswersAreOwnExactly` | crates/lean-rs-worker-child/src/child.rs:1856-1952 | For any sessions, any queries and any number of slots: every answer in every run over them whose clears work is the current environment's own if and only if no two of the queries, cut at every NUL, read alike; with a single slot, no two of one session. |
| `CacheAnswers.CacheIsTransparentExactly` | crates/lean-rs-worker-child/src/child.rs:2588-2668 | Exactly then every reply of every such run is that of a child that never caches. |
| `SnapshotHazards.FailedClearsServeADroppedEnvironment` | crates/lean-rs-worker-child/src/child.rs:1114-1115 | With one slot, a switch away and back whose clears fail answers a query from an environment that no longer exists. |
| `SnapshotHazards.FailedClearsGoWrong` | crates/lean-rs-worker-child/src/child.rs:1097-1116 | A concrete run of five requests from a fresh child, for any two keys and any query, whose last query is answered from the first import although the third is current. |
| `SnapshotHazards.NulInASourceGoesWrong` | crates/lean-rs-worker-child/src/child.rs:2634-2640 | A concrete run of four requests, every clear, build and import succeeding, whose second query, itself free of NULs, is answered from the parked session because the first source held some. |
| `ParentRetry.LeanWorkerHostHandle.Send` | crates/lean-rs-worker-parent/src/capability.rs:1284-1292 | One frame to a child that may have been replaced, be withheld, lose its reply or be answered. |
| `ParentRetry.LeanWorkerHostHandle.WithSessionImports` | crates/lean-rs-worker-parent/src/capability.rs:1294-1313 | Computes `WithSession` in place; under any restarts and losses an `Ok` value was computed in a session for exactly the requested imports. |
| `ParentRetry.ConfirmedOpen` | crates/lean-rs-worker-child/src/child.rs:1051-1147 | After a confirmed open the current session, if any, is the requested one and fresh; there is none exactly when the read after the import failed. |
| `ParentRetry.RetryIsSafe` | crates/lean-rs-worker-parent/src/capability.rs:1294-1313 | The session behind an `Ok` value has the requested root, mode, imports and profile, and was fresh when the command reached it: the registry has moved since only by what the command registered. |
| `ParentRetry.AtMostTwoRounds` | crates/lean-rs-worker-parent/src/capability.rs:1294-1313 | At most two opens and two commands go out, alternating, and the second pair only after the child replied session-missing to the command. |
| `ParentRetry.RoundFrames` | crates/lean-rs-worker-parent/src/capability.rs:1294-1313 | Which frames a round sends: none, the open, or the open and, once it is confirmed, the command. |
| `ParentRetry.FirstRoundDecides` | crates/lean-rs-worker-parent/src/capability.rs:1294-1313 | Unless the command reports a missing session the first round decides: the value of the session current when the command arrives, or else the child's own error code or the failure of the frame. |
| `ParentRetry.SecondRoundDecides` | crates/lean-rs-worker-parent/src/capability.rs:1304-1310 | If it does report one, the second round, on the child the first one left, decides in the same way, a second report included. |
| `ParentRetry.OkExactly` | crates/lean-rs-worker-parent/src/capability.rs:1294-1313 | The caller gets a value if and only if the first round succeeds, or reports a missing session and the second succeeds. |
| `ParentRetry.UndisturbedCallWorks` | crates/lean-rs-worker-parent/src/capability.rs:1294-1313 | An undisturbed first round is enough whatever the child held: two frames, and the command's value on a session for the requested imports or its own error. |
| `ParentRetry.ResetForgetsEverything` | crates/lean-rs-worker-parent/src/capability.rs:1290-1292 | A replacement child starts from nothing: its first open imports, and no session, anchor or snapshot of the old process is left. |
| `ParentRetry.SessionMissingExactly` | crates/lean-rs-worker-parent/src/capability.rs:1534-1536 | A command after a confirmed open finds no session if and only if a reset came in between or the read after the import failed. |
| `ParentRetry.RetryRecovers` | crates/lean-rs-worker-parent/src/capability.rs:1294-1313 | When the second round is undisturbed, the caller gets the command's own result. |
| `StreamRun.StreamForwarder.EmitRow` | crates/lean-rs-worker-child/src/child.rs:1990-1997 | The emitter advances before the write is tried; the frame carries the earlier count of its stream; the tick follows the row. |
| `StreamRun.StreamForwarder.OnEvent` | crates/lean-rs-worker-child/src/child.rs:1395-1474 | The registered callback: stops at once after an error, records the first one, otherwise continues. |
| `StreamRun.ParsesExactly` | crates/lean-rs-worker-child/src/child.rs:2060-2097 | For every payload, event and problem: the parser yields the event if and only if the fields carry it, and reports the problem if and only if the fields have it, in the order diagnostic, progress, metadata, row. |
| `StreamRun.RunDataStream` | crates/lean-rs-worker-child/src/child.rs:1378-1508 | The whole run, callback by callback, computes the delivered state and its end; StreamIsFaithful and RunReports say what they are, read off the payloads. |
| `StreamRun.StreamIsFaithful` | crates/lean-rs-worker-child/src/child.rs:1395-1474 | For every sequence of payloads and pipe failures, the frames are the starting tick and then in order the images, read off the payloads' own fields, of the events before the first failure, and none after it; that failure is what is recorded, and a row whose write failed is the last one counted. |
| `StreamRun.RunReports` | crates/lean-rs-worker-child/src/child.rs:1476-1508 | A failed call is reported first, then the recorded error whatever the status byte; the run succeeds if and only if status 0 meets no failure, with the totals, per-stream totals and last metadata of the events; statuses 1 to 4 and the rest have their own reports. |
| `RefCounts.IncrementExactly` | crates/lean-rs-sys/src/refcount.rs:68-83 | An increment adds `n` and keeps the mode if and only if the new count fits, up to 2^31 - 1 single-threaded and 2^31 multi-threaded, the cast of `n` included. |
| `RefCounts.IncrementPanicsExactly` | crates/lean-rs-sys/src/refcount.rs:68-83 | The panic occurs if and only if the count is single-threaded and, with the increment taken as 32 bits, reaches 2^31. |
| `RefCounts.IncrementWraps` | crates/lean-rs-sys/src/refcount.rs:68-83 | Whatever the increment, a count that does not panic is the exact one modulo 2^32, and a persistent object is not counted. |
| `RefCounts.LeanHeap.LeanIncRefN` | crates/lean-rs-sys/src/refcount.rs:55-83 | Panics exactly when the single-threaded sum leaves `i32`; when the count fits, the object gains `n` owners and keeps its mode. |
| `RefCounts.LeanHeap.LeanInc` | crates/lean-rs-sys/src/refcount.rs:105-113 | One more handle on a heap object, nothing for a scalar; counts stay equal to owners. |
| `RefCounts.LeanHeap.LeanIncN` | crates/lean-rs-sys/src/refcount.rs:122-130 | `n` more handles at once, nothing for a scalar. |
| `RefCounts.LeanHeap.LeanDecRefCold` | crates/lean-rs-sys/src/refcount.rs:135-163 | What the cold path is for: one reference goes and everything whose last reference goes with it is freed, leaving counts equal to owners. |
| `RefCounts.LeanHeap.LeanDecRef` | crates/lean-rs-sys/src/refcount.rs:148-163 | Gives up one handle on every mode, and counts stay equal to owners. |
| `RefCounts.LeanHeap.LeanDec` | crates/lean-rs-sys/src/refcount.rs:172-180 | The same behind the scalar test. |
| `RefCounts.LeanHeap.LeanIoResultTakeValue` | crates/lean-rs-sys/src/io.rs:83-92 | The taken payload is allocated, with its fields and mode, even when the result object is freed; the result handle is exchanged for a payload handle. |
| `RefCounts.LastReferenceFrees` | crates/lean-rs-sys/src/refcount.rs:135-163 | No leak: giving up the only reference frees the object, however large the structure below it. |
| `RefCounts.HeldObjectsSurvive` | crates/lean-rs-sys/src/refcount.rs:135-163 | No use after free: whatever is still held stays allocated with its fields. |
| `RefCountRace.NoLostUpdates` | crates/lean-rs-sys/src/refcount.rs:68-83 | For every interleaving of threads that load and then `fetch_sub`, a multi-threaded object stays so at every point and ends with its initial count plus the sum of the increments. |
| `RefCountRace.StepAlone` | crates/lean-rs-sys/src/refcount.rs:68-83 | An update of a count that is still the loaded one does what the increment does alone, a panic included. |
| `RefCountRace.SingleThreadedPathExactly` | crates/lean-rs-sys/src/refcount.rs:73-79 | For every schedule of threads sharing a single-threaded object and all increments, zero included: the count is at every point the initial one plus the increments of the threads seen, so no update is lost if and only if every thread that adds something is seen. |
| `RefCountRace.PositiveIncrementsExactly` | crates/lean-rs-sys/src/refcount.rs:73-79 | When every thread adds something: no update is lost if and only if no update of another thread falls between a thread's load and its store; otherwise the count ends too low. |
| `RefCountRace.SeenThroughAnother` | crates/lean-rs-sys/src/refcount.rs:73-79 | A schedule in which an update falls between another thread's load and store and still ends up in the count, so that with increments of zero the simpler condition is not exact. |
| `RefCountRace.SingleThreadedPathLosesUpdates` | crates/lean-rs-sys/src/refcount.rs:73-79 | A schedule of two threads that loses an update, for every initial count and increments. |
| `BitMasks.AndClearsLowBits` | crates/lean-rs-sys/src/ctor.rs:56-59 | Masking a word with all but its low `k` bits subtracts what those bits spell. |
| `BitMasks.AndKeepsLowBits` | crates/lean-rs-sys/src/array.rs:190-193 | Masking with the low `k` bits set keeps those bits. |
| `ObjectLayout.CtorSizesExactly` | crates/lean-rs-sys/src/ctor.rs:56-147 | For every shape and both word sizes, allocation succeeds if and only if the object fits the small-object limit, and the aligned size is the least multiple of 8 that covers it and fits 16 bits. |
| `ObjectLayout.DocumentedShapesAllocate` | crates/lean-rs-sys/src/ctor.rs:105-147 | Within 255 object fields and 1024 scalar bytes the assertion never fires. |
| `ObjectLayout.LoadAfterStore` | crates/lean-rs-sys/src/ctor.rs:297-465 | A little-endian word that was written reads back. |
| `ObjectLayout.LoadFrame` | crates/lean-rs-sys/src/ctor.rs:297-465 | Every word disjoint from a write is unchanged. |
| `ObjectLayout.SetStHeader` | crates/lean-rs-sys/src/ctor.rs:44-54 | The bytes of the header: a 32-bit count of 1, 16 bits of size, `m_other`, the tag; they read back, and nothing behind the header changes. |
| `ObjectLayout.LeanAllocCtor` | crates/lean-rs-sys/src/ctor.rs:127-147 | The exact panic condition at 4096 bytes, the size of the memory, and the bytes of a header with count 1, the tag, the field count and the aligned size. |
| `ObjectLayout.LeanCtorSetScalar` | crates/lean-rs-sys/src/ctor.rs:386-465 | Overwrites exactly the little-endian bytes at 8 + word * fields + offset. |
| `ObjectLayout.LeanCtorSetUsize` | crates/lean-rs-sys/src/ctor.rs:368-384 | Overwrites exactly the word at 8 + word * slot. |
| `ObjectLayout.ScalarWrites` | crates/lean-rs-sys/src/ctor.rs:297-465 | A typed scalar write reads back and leaves the header, every object field and every disjoint scalar as they were. |
| `ObjectLayout.ObjFieldWrites` | crates/lean-rs-sys/src/ctor.rs:80-100 | Writing an object field leaves the header, the other fields and all scalar bytes alone. |
| `ObjectLayout.ObjFieldBytes` | crates/lean-rs-sys/src/ctor.rs:80-87 | It overwrites exactly the word at 8 + word * i. |
| `ObjectLayout.UsizeSlotsSpareFieldsExactly` | crates/lean-rs-sys/src/ctor.rs:272-290 | A `usize` slot write spares the object fields, whatever is written, if and only if the slot index is at least the number of object fields. |
| `ObjectLayout.LeanBoxScalar` | crates/lean-rs-sys/src/ctor.rs:161-268 | A boxed 32- or 64-bit scalar, or a float as its bit pattern, is a header with count 1 and the little-endian bytes of the value, and unboxes to it. |
| `ObjectLayout.LeanBoxUsize` | crates/lean-rs-sys/src/ctor.rs:221-244 | A boxed `usize`, written through slot 0, unboxes to the value. |
| `ObjectLayout.LeanAllocArray` | crates/lean-rs-sys/src/array.rs:44-72 | The exact panic condition, the size of the memory, and its bytes: header with tag 246, element count at 8, capacity one word behind it. |
| `ObjectLayout.LeanAllocSArray` | crates/lean-rs-sys/src/array.rs:82-115 | The same for a scalar array, with tag 248 and the element size in `m_other`, which reads back through the mask. |
| `ObjectLayout.ElemSizeIgnoresLinearMark` | crates/lean-rs-sys/src/array.rs:180-193 | The element size is what was stored, whether or not the linearity bit is set. |
| `ObjectLayout.LeanArraySetCore` | crates/lean-rs-sys/src/array.rs:169-178 | In place: exactly the word at 8 + 2 * word + word * i is overwritten; the element reads back; header, element count, capacity and every other element stay. |
| `ObjectLayout.ElementWrites` | crates/lean-rs-sys/src/array.rs:145-178 | Storing an element reads back and touches neither the header nor any other element. |
| `ScalarWidening.BoxUnbox` | crates/lean-rs-sys/src/object.rs:51-76 | Boxing is tagged and loses nothing if and only if the top bit is clear, on both word widths. |
| `ScalarWidening.NatWideningExactly` | crates/lean-rs-sys/src/scalar.rs:29-68 | Every `usize` and `u64` becomes a `Nat` denoting it, tagged if and only if it is below 2^63 on 64-bit and 2^31 on 32-bit hosts. |
| `ScalarWidening.SmallIntRoundTrip` | crates/lean-rs-sys/src/scalar.rs:189-209 | A boxed small integer, negative or not, is recovered with its sign on both widths, in 64 and in 32 bits. |
| `ScalarWidening.TaggedWordReads` | crates/lean-rs-sys/src/scalar.rs:189-209 | Whatever its payload, a tagged word reads as the low 32 bits with their sign on 64-bit hosts and as the signed payload on 32-bit ones. |
| `ScalarWidening.IntWideningExactly` | crates/lean-rs-sys/src/scalar.rs:128-160 | Every `i32` and `i64` becomes an `Int` denoting it, tagged if and only if it fits 32 bits on 64-bit and 31 bits on 32-bit hosts. |
| `ScalarWidening.NatToIntKeepsNumber` | crates/lean-rs-sys/src/scalar.rs:168-182 | Promoting any well-formed `Nat` keeps the number and never leaves a tagged word that reads as another one. |
| `ScalarWidening.Uint64ToIntDenotes` | crates/lean-rs-sys/src/scalar.rs:59-182 | `u64` to `Nat` to `Int` denotes the original on both widths. |
| `ScalarWidening.Uint8OfWidened` | crates/lean-rs-sys/src/scalar.rs:77-88 | Narrowing a widened number to a byte is reduction modulo 256, whichever form it took. |
| `Utf8Bounding.Rfc3629Examples` | crates/lean-rs-worker-child/src/child.rs:2708-2723 | The examples of section 7 of RFC 3629 are encoded as the standard prints them. |
| `Utf8Bounding.EncodedIsValid` | crates/lean-rs-worker-child/src/child.rs:2708-2723 | Every encoding of scalar values passes the byte-level validity test. |
| `Utf8Bounding.ValidIsEncoded` | crates/lean-rs-worker-child/src/child.rs:2708-2723 | Every text that passes it is the encoding of the scalar values it decodes to. |
| `Utf8Bounding.BoundaryIsCharEdge` | crates/lean-rs-worker-child/src/child.rs:2716-2718 | In a valid text a position is a boundary if and only if what precedes it is valid. |
| `Utf8Bounding.BoundRenderedInfo` | crates/lean-rs-worker-child/src/child.rs:2708-2723 | Terminates with the longest whole-character prefix of at most `maxBytes`, losing fewer than 4 bytes of budget, truncated exactly when the value was longer. |
| `Utf8Bounding.PopDropsLastChar` | crates/lean-rs-worker-parent/src/capability.rs:2041-2043 | Popping removes exactly the last character. |
| `Utf8Bounding.PoppingMakesNoBoundary` | crates/lean-rs-worker-parent/src/capability.rs:2041-2043 | After any number of pops a position is a boundary if and only if it was one before and is still within the text. |
| `Utf8Bounding.BoundBootstrapText` | crates/lean-rs-worker-parent/src/capability.rs:2036-2047 | Ends with any allowance of pops, and then with the cut text, if and only if the text fits or its first 1024 bytes are whole characters; otherwise no allowance suffices. |
| `Utf8Bounding.BootstrapLoopsOnAStraddlingCharacter` | crates/lean-rs-worker-parent/src/capability.rs:2036-2047 | A valid 1025-byte text on which no number of pops reaches the exit of the loop. |
| `ByteOrder.BigEndianRoundTrip` | crates/lean-rs-worker-child/benches/row_payload.rs:394-431 | Big-endian bytes of a number that fits read back as it. |
| `ByteOrder.BigEndianOfBytes` | crates/lean-rs-worker-child/benches/row_payload.rs:394-431 | Any bytes are the big-endian bytes of the number they read as. |
| `ByteOrder.BigEndianDigits` | crates/lean-rs-worker-child/benches/row_payload.rs:394-409 | Byte `i` from the end is digit `i` of the number to the base 256. |
| `ByteOrder.LittleEndianDigits` | crates/lean-toolchain/build.rs:101-118 | Byte `i` is digit `i` of the number to the base 256. |
| `ByteOrder.LittleEndianRoundTrip` | crates/lean-toolchain/build.rs:101-118 | Little-endian bytes of a number that fits read back as it. |
| `BinaryFrame.EncodeBinaryFrame` | crates/lean-rs-worker-child/benches/row_payload.rs:394-409 | The appended buffer is the two length-prefixed texts around the sequence number, and the panic is exactly on a length of 2^32 or more. |
| `BinaryFrame.Cursor.ReadExact` | crates/lean-rs-worker-child/benches/row_payload.rs:411-433 | Reads all the bytes asked for and advances past them, or reads none. |
| `BinaryFrame.Cursor.ReadPrefixed` | crates/lean-rs-worker-child/benches/row_payload.rs:411-433 | A length and that many bytes, or the first read that came up short. |
| `BinaryFrame.DecodeBinaryFrame` | crates/lean-rs-worker-child/benches/row_payload.rs:411-433 | The cursor reads, in order, compute `Decoded`, with one error for each way to panic. |
| `BinaryFrame.DecodesExactly` | crates/lean-rs-worker-child/benches/row_payload.rs:394-433 | The decoder returns a frame if and only if the bytes begin with the encoding of that frame. |
| `BinaryFrame.DecodeUndoesEncode` | crates/lean-rs-worker-child/benches/row_payload.rs:394-433 | Decoding an encoded frame, whatever bytes follow, returns it. |
| `BinaryFrame.EncodingIsPrefixFree` | crates/lean-rs-worker-child/benches/row_payload.rs:394-409 | No frame's encoding begins the encoding of another. |
| `BinaryFrame.NotUtf8Exactly` | crates/lean-rs-worker-child/benches/row_payload.rs:411-420 | The encoding error occurs if and only if the bytes frame a stream name that is not UTF-8. |
| `BinaryFrame.ShortReadsExactly` | crates/lean-rs-worker-child/benches/row_payload.rs:411-433 | Each of the other errors occurs if and only if the read it belongs to comes up short, by the lengths the bytes announce. |
| `Batching.PerRowRoundtrip` | crates/lean-rs-worker-child/benches/row_payload.rs:276-294 | The row fold is min(2^64 - 1, exact sum) and sends each row once, in order. |
| `Batching.FramesAreTheRows` | crates/lean-rs-worker-child/benches/row_payload.rs:276-294 | Frame `i` is row `i`: its stream, its payload, the number `i`. |
| `Batching.BatchedRoundtrip` | crates/lean-rs-worker-child/benches/row_payload.rs:296-334 | For every batch size, 0 included, the same total, every row sent exactly once in order, in full batches and at most one shorter one. |
| `Batching.BatchingIsTransparent` | crates/lean-rs-worker-child/benches/row_payload.rs:276-334 | However the rows are cut into batches, the batched fold is the row fold. |
| `DigestPreimage.FeedHasher` | crates/lean-toolchain/build.rs:101-119 | The hasher has seen the length-prefixed pairs in order, or the digest is given up, exactly when a file is missing. |
| `DigestPreimage.EntryBytes` | crates/lean-toolchain/build.rs:113-118 | An entry is the name and the contents, each behind its length as a 64-bit little-endian word. |
| `DigestPreimage.ParseExactly` | crates/lean-toolchain/build.rs:113-118 | A byte string parses to a list if and only if it is that list's preimage. |
| `DigestPreimage.PreimageInjective` | crates/lean-toolchain/build.rs:113-118 | Lists of labelled contents of any lengths with the same preimage are the same list. |
| `DigestPreimage.WriteHex` | crates/lean-toolchain/build.rs:380-386 | The string built in the loop is two lower-case digits a byte. |
| `DigestPreimage.HexReadsBack` | crates/lean-toolchain/build.rs:380-386 | Reading two digits at a time gives each byte back. |
| `DigestPreimage.HexInjective` | crates/lean-toolchain/build.rs:380-386 | Different bytes are written differently. |
| `DigestPreimage.DigestIdentifiesFixture` | crates/lean-toolchain/build.rs:101-121 | Two complete fixtures have the same digest string if and only if they have the same labelled contents, unless SHA-256 collides on their preimages. |

## Left out

- CacheTransparency.CacheIsTransparent: up to the cache facts a reply carries beside its result (hit or miss, timings, entry count), which the model does not have.
- CacheKeyCollisions.SourceExactly: one field at a time, against NUL-free inputs; `CacheKeyCollisions.SourcesCollideExactly` compares any two sources, and `CacheKeyCollisions.PreimagesCollideExactly` any two inputs.
- CacheAnswers.AnswersAreOwnExactly: over runs whose clears work; for runs in which some fail, `SnapshotAgreement.RunAnswersExactly` has the condition on the opens.
- SnapshotCacheKey.PreimageInjective: SHA-256 is taken to be free of collisions, so a digest is its preimage; `usize` in the numeric tail is 64 bits wide.
- PoolIsLru.PoolHoldsMostRecentKeys: for runs whose builds, imports and epoch reads succeed and whose registry stands still; what disturbed runs keep is in PoolStructure and PoolReplies.
- PoolIsLru.HintNeverOverpredicts: the switch that disables the hint, the admission checks and the deferred restart that use it are not modelled; once the registry has moved, what a hinted key meets is in `PoolReplies.ReuseExactly`.
- RefCounts.LeanHeap.LeanDecRefCold: Lean's own function is not part of this model; the method meets the contract its callers rely on, with a work list in place of Lean's traversal.
- RefCountRace.NoLostUpdates: increments only; concurrent decrements go through Lean's cold path, and memory orderings weaker than sequential consistency are not modelled.
- StreamRun.RunDataStream: the export is the sequence of callbacks it makes and its result; the texts of error messages, poisoned mutexes, the elapsed time and the registration and binding failures (all reported as a failed call) are not distinguished.
- Utf8Bounding.BoundBootstrapText: the loop is given an allowance of pops so that its non-termination can be stated; the contract holds for every allowance.
- BinaryFrame.DecodeBinaryFrame: panics are error values; `u32 as usize` is lossless, as on the supported hosts.
- Batching.BatchedRoundtrip: JSON serialisation of frames and batches is the identity, and rows that do not parse, which panic, are not modelled.
- DigestPreimage.FeedHasher: a file that exists but cannot be read panics; discovery of the fixture, the cargo output and `DOCS_RS` are not modelled.
- ObjectLayout.LeanAllocArray: allocation failure and Lean's allocator are not modelled; addresses are positions within one object's memory.
- ScalarWidening.NatWideningExactly: Lean's big-number allocators are taken to hold the number they are given.
- Pipes, framing, signals, process spawning, RSS sampling and environment variables: operating-system calls; what they yield is a parameter where it matters.
- The session host, imports, elaboration and snapshot contents: Lean's; an environment is a serial number and a snapshot is a function of environment and query, also for a `module` file, whose own imports Lean reads again. Reuse of an older snapshot inside Lean's elaborator is not modelled.
- Snapshot lifetime, entry and byte limits: arbitrary loss of entries stands for them.
- The other host commands: they touch the same current session and nothing else the model has, so `HostCommand` stands for all of them.
- Requests for the fixture capability and the test-row requests: they touch neither the pool nor the cache.
- Conversions between wire and host types, builder setters, bootstrap reports, version tables: field copying.
- The memory-pressure taint functions, path deduplication, binding caches and report trimming: true but easy.
- Floating-point values beyond their bit pattern, and the remaining borrowed getters of I/O results.
