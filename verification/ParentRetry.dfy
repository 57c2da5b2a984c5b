/** `LeanWorkerHostHandle::with_session_imports` composed with the child it talks to
    (crates/lean-rs-worker-parent/src/capability.rs:1294-1313, 1534-1536). The child may be
    replaced by a fresh one before any frame, and any frame may fail to go out or to come
    back. */
module ParentRetry {
  import opened Prelude
  import opened SnapshotCacheKey
  import opened WorkerChildModel
  import opened PoolReplies
  import opened PoolStructure

  /** `LeanWorkerError`, as far as the wrapper looks: an error the child replied, with its
      code, or anything else. */
  datatype WorkerError = Worker(code: string) | Other(detail: string)

  function WorkerSessionMissing(err: WorkerError): bool {
    err.Worker? && err.code == SESSION_MISSING
  }

  /** What happens to a frame: withheld by an admission check, sent but its reply lost (the
      child may or may not have processed it), or answered. */
  datatype Fate = NotSent(error: WorkerError) | ReplyLost(processed: bool, error: WorkerError) | Answered

  /** `reset` replaces the child before the frame; the new process has its own registry. */
  datatype Link = Link(reset: Option<nat>, fate: Fate)

  datatype Handle = Handle(child: ChildState, sent: seq<Request>)

  /** A command's value names the session that computed it. */
  datatype Value = Value(servedBy: Session, command: Text)

  datatype Round = OpenFailed(error: WorkerError) | CommandFailed(error: WorkerError) | Done(value: Value)

  /** Lean's answers and the link's behaviour for one open and one command. */
  datatype RoundInputs = RoundInputs(open: OpenInputs, openLink: Link, registered: nat, failure: Option<string>,
                                     commandLink: Link)

  function ChildBefore(child: ChildState, link: Link): ChildState {
    if link.reset.Some? then Initial(link.reset.value) else child
  }

  /** One frame and its reply. Losses are never reported as the child's own error. */
  function Exchange(h: Handle, capacity: nat, toolchain: Toolchain, request: Request, link: Link)
    : (Handle, Result<Response, WorkerError>)
    requires capacity >= 1
  {
    var child := ChildBefore(h.child, link);
    var (after, reply) := Serve(child, capacity, toolchain, request);
    match link.fate
    case NotSent(error) => (Handle(child, h.sent), Err(error))
    case ReplyLost(processed, error) => (Handle(if processed then after else child, h.sent + [request]), Err(error))
    case Answered => (Handle(after, h.sent + [request]), if reply.Error? then Err(Worker(reply.code)) else Ok(reply))
  }

  /** Errors the parent raises itself never carry the child's session-missing code. */
  ghost predicate ParentErrors(link: Link) {
    !link.fate.Answered? ==> !WorkerSessionMissing(link.fate.error)
  }

  function OpenThenCommand(h: Handle, capacity: nat, toolchain: Toolchain, key: HostSessionKey, command: Text,
                           inputs: RoundInputs): (Handle, Round)
    requires capacity >= 1
  {
    var (opened', r) := Exchange(h, capacity, toolchain, OpenHostSession(key, inputs.open), inputs.openLink);
    match r
    case Err(error) => (opened', OpenFailed(error))
    case Ok(_) =>
      var (done, reply) := Exchange(opened', capacity, toolchain, HostCommand(command, inputs.registered, inputs.failure),
                                    inputs.commandLink);
      match reply
      case Err(error) => (done, CommandFailed(error))
      case Ok(response) =>
        (done, if response.CommandDone? then Done(Value(response.servedBy, response.command))
               else CommandFailed(Other("unexpected response")))
  }

  function Outcome(round: Round): Result<Value, WorkerError> {
    match round
    case OpenFailed(error) => Err(error)
    case CommandFailed(error) => Err(error)
    case Done(value) => Ok(value)
  }

  function Retries(round: Round): bool {
    round.CommandFailed? && WorkerSessionMissing(round.error)
  }

  function WithSession(h: Handle, capacity: nat, toolchain: Toolchain, key: HostSessionKey, command: Text,
                       first: RoundInputs, second: RoundInputs): (Handle, Result<Value, WorkerError>)
    requires capacity >= 1
  {
    var (h1, round1) := OpenThenCommand(h, capacity, toolchain, key, command, first);
    if Retries(round1) then
      var (h2, round2) := OpenThenCommand(h1, capacity, toolchain, key, command, second);
      (h2, Outcome(round2))
    else (h1, Outcome(round1))
  }

  /** The parent's handle: the session configuration and the worker it drives. */
  class LeanWorkerHostHandle {
    const sessionConfig: HostSessionKey
    const capacity: nat
    const toolchain: Toolchain
    var child: ChildState
    var sent: seq<Request>

    ghost function State(): Handle
      reads this
    {
      Handle(child, sent)
    }

    constructor (sessionConfig: HostSessionKey, capacity: nat, toolchain: Toolchain, registry: nat)
      ensures this.sessionConfig == sessionConfig && this.capacity == capacity && this.toolchain == toolchain
      ensures State() == Handle(Initial(registry), [])
    {
      this.sessionConfig, this.capacity, this.toolchain := sessionConfig, capacity, toolchain;
      child, sent := Initial(registry), [];
    }

    method Send(request: Request, link: Link) returns (r: Result<Response, WorkerError>)
      requires capacity >= 1
      modifies this
      ensures (State(), r) == Exchange(old(State()), capacity, toolchain, request, link)
    {
      child := ChildBefore(child, link);
      if link.fate.NotSent? { return Err(link.fate.error); }
      sent := sent + [request];
      var (after, reply) := Serve(child, capacity, toolchain, request);
      if link.fate.ReplyLost? {
        if link.fate.processed { child := after; }
        return Err(link.fate.error);
      }
      child := after;
      r := if reply.Error? then Err(Worker(reply.code)) else Ok(reply);
    }

    method OpenAndCall(imports: seq<Text>, command: Text, inputs: RoundInputs) returns (round: Round)
      requires capacity >= 1
      modifies this
      ensures (State(), round) == OpenThenCommand(old(State()), capacity, toolchain,
                                                  sessionConfig.(imports := imports), command, inputs)
    {
      var open := Send(OpenHostSession(sessionConfig.(imports := imports), inputs.open), inputs.openLink);
      if open.Err? { return OpenFailed(open.error); }
      var reply := Send(HostCommand(command, inputs.registered, inputs.failure), inputs.commandLink);
      match reply {
        case Err(error) => round := CommandFailed(error);
        case Ok(response) =>
          round := if response.CommandDone? then Done(Value(response.servedBy, response.command))
                   else CommandFailed(Other("unexpected response"));
      }
    }

    /** Open, command, and one more of each after a session-missing reply to the command.
        Whatever the link and Lean do, an `Ok` value was computed in a session opened for
        exactly the requested imports. */
    method WithSessionImports(imports: seq<Text>, command: Text, first: RoundInputs, second: RoundInputs)
      returns (r: Result<Value, WorkerError>)
      requires capacity >= 1
      modifies this
      ensures (State(), r) == WithSession(old(State()), capacity, toolchain, sessionConfig.(imports := imports), command,
                                          first, second)
      ensures r.Ok? ==> r.value.servedBy.key == sessionConfig.(imports := imports) && r.value.command == command
    {
      RetryIsSafe(State(), capacity, toolchain, sessionConfig.(imports := imports), command, first, second);
      var round := OpenAndCall(imports, command, first);
      if Retries(round) { round := OpenAndCall(imports, command, second); }
      r := Outcome(round);
    }
  }

  // ----- what the child itself says -----

  /** The open reaches the child, which confirms it. */
  predicate OpenConfirmed(child: ChildState, capacity: nat, key: HostSessionKey, inputs: RoundInputs)
    requires capacity >= 1
  {
    inputs.openLink.fate.Answered? && !Open(ChildBefore(child, inputs.openLink), capacity, key, inputs.open).1.Error?
  }

  /** The child as the command finds it after an open. */
  function ChildAtCommand(child: ChildState, capacity: nat, key: HostSessionKey, inputs: RoundInputs): ChildState
    requires capacity >= 1
  {
    ChildBefore(Open(ChildBefore(child, inputs.openLink), capacity, key, inputs.open).0, inputs.commandLink)
  }

  /** A child after a command that may have reached it. */
  function AfterCommand(child: ChildState, registered: nat, fate: Fate): ChildState {
    if child.hostSession.Some? && (fate.Answered? || (fate.ReplyLost? && fate.processed))
    then child.(registry := child.registry + registered)
    else child
  }

  /** The child after a confirmed open and the command behind it. */
  function ChildAfterRound(child: ChildState, capacity: nat, key: HostSessionKey, inputs: RoundInputs): ChildState
    requires capacity >= 1
  {
    AfterCommand(ChildAtCommand(child, capacity, key, inputs), inputs.registered, inputs.commandLink.fate)
  }

  /** The round is answered by a value: the open is confirmed, and the command finds a session
      and does not fail. */
  predicate Succeeds(child: ChildState, capacity: nat, key: HostSessionKey, inputs: RoundInputs)
    requires capacity >= 1
  {
    && OpenConfirmed(child, capacity, key, inputs) && inputs.commandLink.fate.Answered?
    && ChildAtCommand(child, capacity, key, inputs).hostSession.Some? && inputs.failure.None?
  }

  /** The round ends in the code that means a missing session: the command finds none, or fails
      with that code, or the parent raises it itself. */
  predicate ReportsMissing(child: ChildState, capacity: nat, key: HostSessionKey, inputs: RoundInputs)
    requires capacity >= 1
  {
    OpenConfirmed(child, capacity, key, inputs) &&
    if !inputs.commandLink.fate.Answered? then inputs.commandLink.fate.error == Worker("lean_rs.worker.session_missing")
    else
      || ChildAtCommand(child, capacity, key, inputs).hostSession.None?
      || inputs.failure == Some("lean_rs.worker.session_missing")
  }

  /** What a round that neither succeeds nor is withheld reports. */
  ghost predicate FailsWith(child: ChildState, capacity: nat, key: HostSessionKey, inputs: RoundInputs, error: WorkerError)
    requires capacity >= 1
  {
    var reply := Open(ChildBefore(child, inputs.openLink), capacity, key, inputs.open).1;
    if !inputs.openLink.fate.Answered? then error == inputs.openLink.fate.error
    else if reply.Error? then error == Worker(reply.code)
    else if !inputs.commandLink.fate.Answered? then error == inputs.commandLink.fate.error
    else if ChildAtCommand(child, capacity, key, inputs).hostSession.None? then
      error == Worker("lean_rs.worker.session_missing")
    else inputs.failure.Some? && error == Worker(inputs.failure.value)
  }

  // ----- safety -----

  /** After a confirmed open the current session, if any, is the requested one and carries
      the live epoch. */
  lemma ConfirmedOpen(s: ChildState, capacity: nat, key: HostSessionKey, inputs: OpenInputs)
    requires capacity >= 1 && !Open(s, capacity, key, inputs).1.Error?
    ensures var (s', reply) := Open(s, capacity, key, inputs);
            && (s'.hostSession.Some? ==> s'.hostSession.value.key == key && s'.hostSession.value.epoch == s'.registry)
            && (s'.hostSession.None? <==> reply.HostSessionOpened? && !inputs.lastRead)
  {
    ReuseExactly(s, capacity, key, inputs);
    OpenLeavesFresh(s, capacity, key, inputs);
    var (s', reply) := Open(s, capacity, key, inputs);
    if !reply.HostSessionReused? {
      MissExactly(s, capacity, key, inputs);
    }
  }

  lemma RoundIsSafe(h: Handle, capacity: nat, toolchain: Toolchain, key: HostSessionKey, command: Text, inputs: RoundInputs)
    requires capacity >= 1
    ensures var (h', round) := OpenThenCommand(h, capacity, toolchain, key, command, inputs);
            round.Done? ==>
              && round.value.servedBy.key == key && round.value.command == command
              && round.value.servedBy.epoch + inputs.registered == h'.child.registry
  {
    var child := ChildBefore(h.child, inputs.openLink);
    if !Open(child, capacity, key, inputs.open).1.Error? {
      ConfirmedOpen(child, capacity, key, inputs.open);
    }
  }

  /** Under arbitrary restarts and losses, an `Ok` value was computed in a session for the
      requested root, mode, imports and profile, by an environment that was not stale when
      the command reached it: the registry has moved since only by what the command itself
      registered. */
  lemma RetryIsSafe(h: Handle, capacity: nat, toolchain: Toolchain, key: HostSessionKey, command: Text,
                    first: RoundInputs, second: RoundInputs)
    requires capacity >= 1
    ensures var (h', r) := WithSession(h, capacity, toolchain, key, command, first, second);
            var round1 := OpenThenCommand(h, capacity, toolchain, key, command, first).1;
            var last := if Retries(round1) then second else first;
            r.Ok? ==> r.value.servedBy.key == key && r.value.command == command
                      && r.value.servedBy.epoch + last.registered == h'.child.registry
  {
    RoundIsSafe(h, capacity, toolchain, key, command, first);
    var (h1, _) := OpenThenCommand(h, capacity, toolchain, key, command, first);
    RoundIsSafe(h1, capacity, toolchain, key, command, second);
  }

  /** The frames one round puts on the wire. */
  lemma RoundFrames(h: Handle, capacity: nat, toolchain: Toolchain, key: HostSessionKey, command: Text, inputs: RoundInputs)
    requires capacity >= 1
    ensures var (h', round) := OpenThenCommand(h, capacity, toolchain, key, command, inputs);
            var open, run := OpenHostSession(key, inputs.open), HostCommand(command, inputs.registered, inputs.failure);
            h'.sent == h.sent + if inputs.openLink.fate.NotSent? then []
                                else if !OpenConfirmed(h.child, capacity, key, inputs) then [open]
                                else if inputs.commandLink.fate.NotSent? then [open]
                                else [open, run]
  {
    var open, run := OpenHostSession(key, inputs.open), HostCommand(command, inputs.registered, inputs.failure);
    assert h.sent + [open] + [run] == h.sent + [open, run];
  }

  /** At most two opens and two commands go out, alternating, and anything beyond the first
      pair goes out only after the child itself replied session-missing to the command. */
  lemma AtMostTwoRounds(h: Handle, capacity: nat, toolchain: Toolchain, key: HostSessionKey, command: Text,
                        first: RoundInputs, second: RoundInputs)
    requires capacity >= 1 && ParentErrors(first.commandLink)
    ensures var h' := WithSession(h, capacity, toolchain, key, command, first, second).0;
            var (h1, round1) := OpenThenCommand(h, capacity, toolchain, key, command, first);
            var frames := [OpenHostSession(key, first.open), HostCommand(command, first.registered, first.failure),
                           OpenHostSession(key, second.open), HostCommand(command, second.registered, second.failure)];
            && (exists n :: 0 <= n <= 4 && h'.sent == h.sent + frames[..n])
            && (h'.sent != h1.sent ==>
                  round1 == CommandFailed(Worker(SESSION_MISSING)) && h1.sent == h.sent + frames[..2])
  {
    var frames := [OpenHostSession(key, first.open), HostCommand(command, first.registered, first.failure),
                   OpenHostSession(key, second.open), HostCommand(command, second.registered, second.failure)];
    var (h1, round1) := OpenThenCommand(h, capacity, toolchain, key, command, first);
    var h' := WithSession(h, capacity, toolchain, key, command, first, second).0;
    RoundFrames(h, capacity, toolchain, key, command, first);
    RoundFrames(h1, capacity, toolchain, key, command, second);
    assert frames[..0] == [] && frames[..1] == [frames[0]] && frames[..2] == [frames[0], frames[1]];
    assert frames[..3] == frames[..2] + [frames[2]] && frames[..4] == frames[..2] + [frames[2], frames[3]];
    assert h.sent + frames[..0] == h.sent;
    if Retries(round1) {
      assert h1.sent == h.sent + frames[..2];
      assert h.sent + frames[..3] == h1.sent + [frames[2]];
      assert h.sent + frames[..4] == h1.sent + [frames[2], frames[3]];
    }
    var n := |h'.sent| - |h.sent|;
    assert 0 <= n <= 4 && h'.sent == h.sent + frames[..n];
  }

  // ----- the result -----

  lemma RoundResult(h: Handle, capacity: nat, toolchain: Toolchain, key: HostSessionKey, command: Text,
                    inputs: RoundInputs)
    requires capacity >= 1
    ensures var round := OpenThenCommand(h, capacity, toolchain, key, command, inputs).1;
            if Succeeds(h.child, capacity, key, inputs)
            then round == Done(Value(ChildAtCommand(h.child, capacity, key, inputs).hostSession.value, command))
            else !round.Done? && FailsWith(h.child, capacity, key, inputs, round.error)
  {
  }

  lemma RoundRetries(h: Handle, capacity: nat, toolchain: Toolchain, key: HostSessionKey, command: Text,
                     inputs: RoundInputs)
    requires capacity >= 1
    ensures Retries(OpenThenCommand(h, capacity, toolchain, key, command, inputs).1)
            <==> ReportsMissing(h.child, capacity, key, inputs)
  {
  }

  lemma CommandLeaves(h: Handle, capacity: nat, toolchain: Toolchain, command: Text, registered: nat,
                      failure: Option<string>, link: Link)
    requires capacity >= 1
    ensures Exchange(h, capacity, toolchain, HostCommand(command, registered, failure), link).0.child
         == AfterCommand(ChildBefore(h.child, link), registered, link.fate)
  {
  }

  lemma OpenLeaves(h: Handle, capacity: nat, toolchain: Toolchain, key: HostSessionKey, inputs: RoundInputs)
    requires capacity >= 1
    ensures var (h', r) := Exchange(h, capacity, toolchain, OpenHostSession(key, inputs.open), inputs.openLink);
            var child, fate := ChildBefore(h.child, inputs.openLink), inputs.openLink.fate;
            && (r.Ok? <==> OpenConfirmed(h.child, capacity, key, inputs))
            && h'.child == if fate.Answered? || (fate.ReplyLost? && fate.processed)
                           then Open(child, capacity, key, inputs.open).0 else child
  {
  }

  lemma RoundLeaves(h: Handle, capacity: nat, toolchain: Toolchain, key: HostSessionKey, command: Text,
                    inputs: RoundInputs)
    requires capacity >= 1 && OpenConfirmed(h.child, capacity, key, inputs)
    ensures OpenThenCommand(h, capacity, toolchain, key, command, inputs).0.child
         == ChildAfterRound(h.child, capacity, key, inputs)
  {
    var h1 := Exchange(h, capacity, toolchain, OpenHostSession(key, inputs.open), inputs.openLink).0;
    OpenLeaves(h, capacity, toolchain, key, inputs);
    CommandLeaves(h1, capacity, toolchain, command, inputs.registered, inputs.failure, inputs.commandLink);
  }

  /** Unless the command reports a missing session, the first round decides: its value if it
      succeeds, and otherwise its error, which is the child's own reply or the failure of the
      frame. */
  lemma FirstRoundDecides(h: Handle, capacity: nat, toolchain: Toolchain, key: HostSessionKey, command: Text,
                          first: RoundInputs, second: RoundInputs)
    requires capacity >= 1 && !ReportsMissing(h.child, capacity, key, first)
    ensures var r := WithSession(h, capacity, toolchain, key, command, first, second).1;
            if Succeeds(h.child, capacity, key, first)
            then r == Ok(Value(ChildAtCommand(h.child, capacity, key, first).hostSession.value, command))
            else r.Err? && FailsWith(h.child, capacity, key, first, r.error)
  {
    RoundResult(h, capacity, toolchain, key, command, first);
    RoundRetries(h, capacity, toolchain, key, command, first);
  }

  /** If it does, the second round decides, a second report of a missing session included. */
  lemma SecondRoundDecides(h: Handle, capacity: nat, toolchain: Toolchain, key: HostSessionKey, command: Text,
                           first: RoundInputs, second: RoundInputs)
    requires capacity >= 1 && ReportsMissing(h.child, capacity, key, first)
    ensures var r := WithSession(h, capacity, toolchain, key, command, first, second).1;
            var child := ChildAfterRound(h.child, capacity, key, first);
            if Succeeds(child, capacity, key, second)
            then r == Ok(Value(ChildAtCommand(child, capacity, key, second).hostSession.value, command))
            else r.Err? && FailsWith(child, capacity, key, second, r.error)
  {
    RoundRetries(h, capacity, toolchain, key, command, first);
    RoundLeaves(h, capacity, toolchain, key, command, first);
    var (h1, _) := OpenThenCommand(h, capacity, toolchain, key, command, first);
    RoundResult(h1, capacity, toolchain, key, command, second);
  }

  /** The caller gets a value if and only if the first round succeeds, or reports a missing
      session and the second succeeds. */
  lemma OkExactly(h: Handle, capacity: nat, toolchain: Toolchain, key: HostSessionKey, command: Text,
                  first: RoundInputs, second: RoundInputs)
    requires capacity >= 1
    ensures WithSession(h, capacity, toolchain, key, command, first, second).1.Ok? <==>
              || Succeeds(h.child, capacity, key, first)
              || (ReportsMissing(h.child, capacity, key, first)
                  && Succeeds(ChildAfterRound(h.child, capacity, key, first), capacity, key, second))
  {
    if ReportsMissing(h.child, capacity, key, first) {
      SecondRoundDecides(h, capacity, toolchain, key, command, first, second);
    } else {
      FirstRoundDecides(h, capacity, toolchain, key, command, first, second);
    }
  }

  /** An undisturbed first round is enough, whatever the child held before: the command runs on
      a session for exactly the requested imports, and its value or its own error is returned. */
  lemma UndisturbedCallWorks(h: Handle, capacity: nat, toolchain: Toolchain, key: HostSessionKey, command: Text,
                             first: RoundInputs, second: RoundInputs)
    requires capacity >= 1 && first.openLink.fate.Answered? && first.commandLink == Link(None, Answered)
    requires first.open.anchorBuilt && first.open.imported && first.open.lastRead
    requires first.failure != Some("lean_rs.worker.session_missing")
    ensures var (h', r) := WithSession(h, capacity, toolchain, key, command, first, second);
            && (first.failure.Some? ==> r == Err(Worker(first.failure.value)))
            && (first.failure.None? ==> r.Ok? && r.value.servedBy.key == key && r.value.command == command)
            && |h'.sent| == |h.sent| + 2
  {
    OpenSucceeds(ChildBefore(h.child, first.openLink), capacity, key, first.open);
    FirstRoundDecides(h, capacity, toolchain, key, command, first, second);
    RoundRetries(h, capacity, toolchain, key, command, first);
    RoundFrames(h, capacity, toolchain, key, command, first);
  }

  // ----- the retry works -----

  /** A replacement child starts from nothing: its first open always imports, as its import
      number 0, and no session, anchor or snapshot of the old process is left. */
  lemma ResetForgetsEverything(h: Handle, capacity: nat, toolchain: Toolchain, key: HostSessionKey, inputs: OpenInputs,
                               registry: nat)
    requires capacity >= 1
    ensures var (h', r) := Exchange(h, capacity, toolchain, OpenHostSession(key, inputs), Link(Some(registry), Answered));
            && r == (if inputs.anchorBuilt && inputs.imported then Ok(HostSessionOpened(0))
                     else Err(Worker(inputs.errorCode)))
            && h'.child.parked == [] && h'.child.snapshots == map[]
            && h'.child.anchors == if inputs.anchorBuilt then [HostAnchor(key.projectRoot, key.mode)] else []
  {
    var anchored := FindOrBuildAnchor(Initial(registry), key, inputs).0;
    assert anchored.parked == [];
    SweepHolds(Install(anchored, key, inputs.registryAfterImport), inputs.lastRead, inputs.lastClear);
  }

  /** When a command that reaches the child finds no session, although the open before it
      was confirmed: a reset came in between, or the read after the import failed. */
  lemma SessionMissingExactly(h: Handle, capacity: nat, toolchain: Toolchain, key: HostSessionKey, command: Text,
                              inputs: RoundInputs)
    requires capacity >= 1 && inputs.openLink.fate.Answered? && inputs.commandLink.fate.Answered?
    requires inputs.failure.Some? ==> inputs.failure.value != SESSION_MISSING
    ensures var round := OpenThenCommand(h, capacity, toolchain, key, command, inputs).1;
            var reply := Open(ChildBefore(h.child, inputs.openLink), capacity, key, inputs.open).1;
            Retries(round) <==>
              !reply.Error? && (inputs.commandLink.reset.Some? || (reply.HostSessionOpened? && !inputs.open.lastRead))
  {
    RoundRetries(h, capacity, toolchain, key, command, inputs);
    var child := ChildBefore(h.child, inputs.openLink);
    if !Open(child, capacity, key, inputs.open).1.Error? {
      ConfirmedOpen(child, capacity, key, inputs.open);
    }
  }

  /** If the first round ends in a session-missing reply and the second is undisturbed, the
      caller gets the command's own result. */
  lemma RetryRecovers(h: Handle, capacity: nat, toolchain: Toolchain, key: HostSessionKey, command: Text,
                      first: RoundInputs, second: RoundInputs)
    requires capacity >= 1
    requires Retries(OpenThenCommand(h, capacity, toolchain, key, command, first).1)
    requires second.openLink.fate.Answered? && second.commandLink.fate.Answered? && second.commandLink.reset.None?
    requires second.open.anchorBuilt && second.open.imported && second.open.lastRead
    ensures var r := WithSession(h, capacity, toolchain, key, command, first, second).1;
            if second.failure.Some? then r == Err(Worker(second.failure.value))
            else r.Ok? && r.value.servedBy.key == key && r.value.command == command
  {
    var child := ChildAfterRound(h.child, capacity, key, first);
    RoundRetries(h, capacity, toolchain, key, command, first);
    OpenSucceeds(ChildBefore(child, second.openLink), capacity, key, second.open);
    SecondRoundDecides(h, capacity, toolchain, key, command, first, second);
  }

  lemma OpenSucceeds(s: ChildState, capacity: nat, key: HostSessionKey, inputs: OpenInputs)
    requires capacity >= 1 && inputs.anchorBuilt && inputs.imported && inputs.lastRead
    ensures var (s', reply) := Open(s, capacity, key, inputs);
            !reply.Error? && s'.hostSession.Some? && s'.hostSession.value.key == key
  {
    ReuseExactly(s, capacity, key, inputs);
    if !IsHeld(Sweep(s, inputs.firstRead, inputs.firstClear), key) { MissExactly(s, capacity, key, inputs); }
  }
}
