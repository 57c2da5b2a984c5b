/** One `run_data_stream`: the callback Lean drives, the frames it writes, and what the run
    reports (crates/lean-rs-worker-child/src/child.rs:1378-1508, 1970-2018, 2060-2119; the
    row emitter at crates/lean-rs-worker-protocol/src/protocol.rs:486-529). */
module StreamRun {
  import opened Prelude

  // ----- payloads -----

  datatype RawDiagnostic = RawDiagnostic(code: Option<Text>, message: Option<Text>)
  datatype RawProgress = RawProgress(phase: Option<Text>, current: u64, total: Option<u64>)
  datatype RawMetadata = RawMetadata(text: Text, rejected: Option<string>)

  /** `RowCallbackEnvelope`, as serde reads it. */
  datatype Envelope = Envelope(stream: Option<Text>, payload: Option<Text>, diagnostic: Option<RawDiagnostic>,
                               progress: Option<RawProgress>, metadata: Option<RawMetadata>)

  /** A callback's string, after serde has looked at it. */
  datatype Payload = NotAnEnvelope(reason: string) | Parsed(envelope: Envelope)

  datatype StreamEvent =
    | Row(stream: Text, payload: Text)
    | Diagnostic(code: Text, message: Text)
    | Progress(phase: Text, current: u64, total: Option<u64>)
    | Metadata(value: Text)

  /** Why a payload is malformed; one constructor per message of the source. */
  datatype RowProblem =
    | PayloadNotJson(reason: string)
    | DiagnosticWithoutCode
    | DiagnosticWithoutMessage
    | ProgressWithoutPhase
    | MetadataNotJson(reason: string)
    | RowWithoutStream
    | RowWithoutPayload

  /** `.filter(|value| !value.is_empty())` on an optional string. */
  predicate Missing(t: Option<Text>) {
    t.None? || t.value == []
  }

  /** `parse_row_envelope`: a diagnostic wins over progress, progress over metadata, metadata
      over a row. */
  function ParseRowEnvelope(raw: Payload): Result<StreamEvent, RowProblem> {
    match raw
    case NotAnEnvelope(reason) => Err(PayloadNotJson(reason))
    case Parsed(Envelope(_, _, Some(RawDiagnostic(code, message)), _, _)) =>
      if Missing(code) then Err(DiagnosticWithoutCode)
      else if message.None? then Err(DiagnosticWithoutMessage)
      else Ok(Diagnostic(code.value, message.value))
    case Parsed(Envelope(_, _, None, Some(RawProgress(phase, current, total)), _)) =>
      if Missing(phase) then Err(ProgressWithoutPhase) else Ok(Progress(phase.value, current, total))
    case Parsed(Envelope(_, _, None, None, Some(RawMetadata(text, rejected)))) =>
      if rejected.Some? then Err(MetadataNotJson(rejected.value)) else Ok(Metadata(text))
    case Parsed(Envelope(stream, payload, None, None, None)) =>
      if Missing(stream) then Err(RowWithoutStream)
      else if payload.None? then Err(RowWithoutPayload)
      else Ok(Row(stream.value, payload.value))
  }

  /** The payload is this event, field by field. */
  predicate Carries(raw: Payload, event: StreamEvent) {
    raw.Parsed? &&
    var e := raw.envelope;
    match event
    case Diagnostic(code, message) => e.diagnostic == Some(RawDiagnostic(Some(code), Some(message))) && code != []
    case Progress(phase, current, total) =>
      e.diagnostic.None? && e.progress == Some(RawProgress(Some(phase), current, total)) && phase != []
    case Metadata(value) => e.diagnostic.None? && e.progress.None? && e.metadata == Some(RawMetadata(value, None))
    case Row(stream, payload) =>
      && e.diagnostic.None? && e.progress.None? && e.metadata.None?
      && e.stream == Some(stream) && stream != [] && e.payload == Some(payload)
  }

  /** The payload is malformed in this way, field by field. */
  predicate Has(raw: Payload, problem: RowProblem) {
    if raw.NotAnEnvelope? then problem == PayloadNotJson(raw.reason)
    else
      var e := raw.envelope;
      match problem
      case PayloadNotJson(_) => false
      case DiagnosticWithoutCode => e.diagnostic.Some? && Missing(e.diagnostic.value.code)
      case DiagnosticWithoutMessage =>
        && e.diagnostic.Some? && !Missing(e.diagnostic.value.code)
        && e.diagnostic.value.message.None?
      case ProgressWithoutPhase =>
        e.diagnostic.None? && e.progress.Some? && Missing(e.progress.value.phase)
      case MetadataNotJson(reason) =>
        && e.diagnostic.None? && e.progress.None? && e.metadata.Some?
        && e.metadata.value.rejected == Some(reason)
      case RowWithoutStream =>
        && e.diagnostic.None? && e.progress.None? && e.metadata.None?
        && Missing(e.stream)
      case RowWithoutPayload =>
        && e.diagnostic.None? && e.progress.None? && e.metadata.None?
        && !Missing(e.stream) && e.payload.None?
  }

  /** The parser yields exactly the event the payload carries, and exactly the problem it has. */
  lemma ParsesExactly(raw: Payload, event: StreamEvent, problem: RowProblem)
    ensures ParseRowEnvelope(raw) == Ok(event) <==> Carries(raw, event)
    ensures ParseRowEnvelope(raw) == Err(problem) <==> Has(raw, problem)
  {
  }

  // ----- the callback -----

  datatype Frame =
    | DataRow(stream: Text, sequence: u64, payload: Text)
    | DiagnosticFrame(code: Text, message: Text)
    | ProgressTick(phase: Text, current: u64, total: Option<u64>)

  datatype CallbackError = Malformed(problem: RowProblem) | Write(message: string)

  datatype Flow = Continue | Stop

  /** One invocation of the callback: its string, and what the pipe does to the frame
      (`written`) and to the progress tick after a row (`ticked`). */
  datatype Delivery = Delivery(raw: Payload, written: Result<(), string>, ticked: bool)

  datatype StreamState = StreamState(frames: seq<Frame>, sequences: map<Text, u64>, count: u64,
                                     metadata: Option<Text>, error: Option<CallbackError>)

  const DATA_STREAM: Text := Ascii("data_stream")

  function SaturatingSucc(n: u64): u64 {
    if n == U64_MAX then n else n + 1
  }

  function SequenceOf(sequences: map<Text, u64>, stream: Text): u64 {
    if stream in sequences then sequences[stream] else 0
  }

  /** `StreamForwarder::emit_row`. The emitter advances before the write is tried. */
  function RowEmitted(st: StreamState, progress: bool, stream: Text, payload: Text, d: Delivery): StreamState {
    var sequence := SequenceOf(st.sequences, stream);
    var next := st.(sequences := st.sequences[stream := SaturatingSucc(sequence)], count := SaturatingSucc(st.count));
    match d.written
    case Err(message) => next.(error := Some(Write(message)))
    case Ok(_) =>
      next.(frames := st.frames + [DataRow(stream, sequence, payload)] +
                      if progress && d.ticked then [ProgressTick(DATA_STREAM, next.count, None)] else [])
  }

  function FrameEmitted(st: StreamState, frame: Frame, d: Delivery): StreamState {
    match d.written
    case Err(message) => st.(error := Some(Write(message)))
    case Ok(_) => st.(frames := st.frames + [frame])
  }

  /** The registered callback. Once an error is recorded it does nothing but stop. */
  function Callback(st: StreamState, progress: bool, d: Delivery): StreamState {
    if st.error.Some? then st
    else
      match ParseRowEnvelope(d.raw)
      case Err(problem) => st.(error := Some(Malformed(problem)))
      case Ok(Row(stream, payload)) => RowEmitted(st, progress, stream, payload, d)
      case Ok(Diagnostic(code, message)) => FrameEmitted(st, DiagnosticFrame(code, message), d)
      case Ok(Progress(phase, current, total)) => FrameEmitted(st, ProgressTick(phase, current, total), d)
      case Ok(Metadata(value)) => st.(metadata := Some(value))
  }

  function Start(progress: bool, ticked: bool): StreamState {
    StreamState(if progress && ticked then [ProgressTick(DATA_STREAM, 0, None)] else [], map[], 0, None, None)
  }

  function Deliver(st: StreamState, progress: bool, ds: seq<Delivery>): StreamState {
    if ds == [] then st
    else Callback(Deliver(st, progress, ds[..|ds| - 1]), progress, ds[|ds| - 1])
  }

  // ----- the end of the run -----

  datatype CallbackStatus = StaleHandle | Panic | WrongPayload | Stopped

  datatype StreamRunError =
    | Host(message: string)
    | FrameWriteFailed(message: string)
    | ExportStatus(status: byte)
    | StatusOfCallback(callback: CallbackStatus)
    | MalformedRow(problem: RowProblem)

  datatype StreamSummary = StreamSummary(totalRows: u64, perStream: map<Text, u64>, metadata: Option<Text>)

  /** What follows the export's return: a failed call, then the recorded callback error, then
      the status byte. */
  function Finish(st: StreamState, call: Result<byte, string>): Result<StreamSummary, StreamRunError> {
    if call.Err? then Err(Host(call.error))
    else if st.error.Some? then
      Err(match st.error.value
          case Malformed(problem) => MalformedRow(problem)
          case Write(message) => FrameWriteFailed(message))
    else if call.value == 0 then Ok(StreamSummary(st.count, st.sequences, st.metadata))
    else if call.value == 1 then Err(StatusOfCallback(StaleHandle))
    else if call.value == 2 then Err(StatusOfCallback(Panic))
    else if call.value == 3 then Err(StatusOfCallback(WrongPayload))
    else if call.value == 4 then Err(StatusOfCallback(Stopped))
    else Err(ExportStatus(call.value))
  }

  /** The forwarder and the error slot the callback closes over. */
  class StreamForwarder {
    const progress: bool
    var frames: seq<Frame>
    var sequences: map<Text, u64>
    var count: u64
    var metadata: Option<Text>
    var error: Option<CallbackError>

    ghost function State(): StreamState
      reads this
    {
      StreamState(frames, sequences, count, metadata, error)
    }

    constructor (progress: bool, ticked: bool)
      ensures State() == Start(progress, ticked) && this.progress == progress
    {
      this.progress := progress;
      frames := if progress && ticked then [ProgressTick(DATA_STREAM, 0, None)] else [];
      sequences, count, metadata, error := map[], 0, None, None;
    }

    method EmitRow(stream: Text, payload: Text, d: Delivery)
      modifies this
      ensures State() == RowEmitted(old(State()), progress, stream, payload, d)
    {
      var sequence := SequenceOf(sequences, stream);
      sequences := sequences[stream := SaturatingSucc(sequence)];
      count := SaturatingSucc(count);
      if d.written.Err? {
        error := Some(Write(d.written.error));
        return;
      }
      frames := frames + [DataRow(stream, sequence, payload)];
      if progress && d.ticked { frames := frames + [ProgressTick(DATA_STREAM, count, None)]; }
    }

    method EmitFrame(frame: Frame, d: Delivery)
      modifies this
      ensures State() == FrameEmitted(old(State()), frame, d)
    {
      if d.written.Err? {
        error := Some(Write(d.written.error));
      } else {
        frames := frames + [frame];
      }
    }

    method OnEvent(d: Delivery) returns (flow: Flow)
      modifies this
      ensures State() == Callback(old(State()), progress, d)
      ensures flow.Stop? <==> error.Some?
    {
      if error.Some? { return Stop; }
      match ParseRowEnvelope(d.raw) {
        case Err(problem) => error := Some(Malformed(problem));
        case Ok(Row(stream, payload)) => EmitRow(stream, payload, d);
        case Ok(Diagnostic(code, message)) => EmitFrame(DiagnosticFrame(code, message), d);
        case Ok(Progress(phase, current, total)) => EmitFrame(ProgressTick(phase, current, total), d);
        case Ok(Metadata(value)) => metadata := Some(value);
      }
      flow := if error.Some? then Stop else Continue;
    }
  }

  /** `run_data_stream`, with the loop standing for the export that calls the callback. */
  method RunDataStream(progress: bool, ticked: bool, ds: seq<Delivery>, call: Result<byte, string>)
    returns (r: Result<StreamSummary, StreamRunError>, frames: seq<Frame>)
    ensures var st := Deliver(Start(progress, ticked), progress, ds); r == Finish(st, call) && frames == st.frames
  {
    var forwarder := new StreamForwarder(progress, ticked);
    for i := 0 to |ds|
      invariant forwarder.State() == Deliver(Start(progress, ticked), progress, ds[..i])
    {
      var _ := forwarder.OnEvent(ds[i]);
      DeliverOne(Start(progress, ticked), progress, ds[..i], ds[i]);
      assert ds[..i + 1] == ds[..i] + [ds[i]];
    }
    assert ds[..|ds|] == ds;
    r := Finish(StreamState(forwarder.frames, forwarder.sequences, forwarder.count, forwarder.metadata, forwarder.error),
                call);
    frames := forwarder.frames;
  }

  // ----- what the run did, read off the deliveries alone -----

  predicate IsMalformed(raw: Payload) {
    raw.NotAnEnvelope? ||
    var e := raw.envelope;
    if e.diagnostic.Some? then Missing(e.diagnostic.value.code) || e.diagnostic.value.message.None?
    else if e.progress.Some? then Missing(e.progress.value.phase)
    else if e.metadata.Some? then e.metadata.value.rejected.Some?
    else Missing(e.stream) || e.payload.None?
  }

  /** Metadata is kept in memory, so there is no frame to write. */
  predicate IsMetadata(raw: Payload) {
    raw.Parsed? && raw.envelope.diagnostic.None? && raw.envelope.progress.None? && raw.envelope.metadata.Some?
  }

  predicate Fails(d: Delivery) {
    IsMalformed(d.raw) || (!IsMetadata(d.raw) && d.written.Err?)
  }

  /** The error a failing delivery leaves behind. */
  ghost predicate Explains(d: Delivery, error: CallbackError) {
    match error
    case Malformed(problem) => Has(d.raw, problem)
    case Write(message) => !IsMalformed(d.raw) && d.written == Err(message)
  }

  /** The number of deliveries before the first malformed payload or failed write. */
  function Accepted(ds: seq<Delivery>): (n: nat)
    ensures n <= |ds|
    ensures forall i :: 0 <= i < n ==> !Fails(ds[i])
    ensures n < |ds| ==> Fails(ds[n])
  {
    if ds == [] || Fails(ds[0]) then 0 else 1 + Accepted(ds[1..])
  }

  predicate IsRow(d: Delivery) {
    !IsMalformed(d.raw) &&
    d.raw.envelope.diagnostic.None? && d.raw.envelope.progress.None? && d.raw.envelope.metadata.None?
  }

  predicate IsRowOn(d: Delivery, stream: Text) {
    IsRow(d) && d.raw.envelope.stream == Some(stream)
  }

  function RowCount(ds: seq<Delivery>): nat {
    if ds == [] then 0 else RowCount(ds[..|ds| - 1]) + if IsRow(ds[|ds| - 1]) then 1 else 0
  }

  function RowCountOn(ds: seq<Delivery>, stream: Text): nat {
    if ds == [] then 0 else RowCountOn(ds[..|ds| - 1], stream) + if IsRowOn(ds[|ds| - 1], stream) then 1 else 0
  }

  function LastMetadata(ds: seq<Delivery>): Option<Text> {
    if ds == [] then None
    else
      var raw := ds[|ds| - 1].raw;
      if IsMetadata(raw) && raw.envelope.metadata.value.rejected.None? then Some(raw.envelope.metadata.value.text)
      else LastMetadata(ds[..|ds| - 1])
  }

  function Saturated(n: nat): u64 {
    if n < U64_MAX then n else U64_MAX
  }

  /** The frames an accepted event stands for after the events `before`: a row carries the
      number of earlier rows on its stream, and its tick the rows so far. */
  function Image(before: seq<Delivery>, d: Delivery, progress: bool): seq<Frame>
    requires !Fails(d)
  {
    var e := d.raw.envelope;
    if e.diagnostic.Some? then [DiagnosticFrame(e.diagnostic.value.code.value, e.diagnostic.value.message.value)]
    else if e.progress.Some? then
      [ProgressTick(e.progress.value.phase.value, e.progress.value.current, e.progress.value.total)]
    else if e.metadata.Some? then []
    else
      [DataRow(e.stream.value, Saturated(RowCountOn(before, e.stream.value)), e.payload.value)] +
      if progress && d.ticked then [ProgressTick(Ascii("data_stream"), Saturated(RowCount(before) + 1), None)] else []
  }

  function Images(ds: seq<Delivery>, progress: bool): seq<Frame>
    requires forall i :: 0 <= i < |ds| ==> !Fails(ds[i])
  {
    if ds == [] then []
    else Images(ds[..|ds| - 1], progress) + Image(ds[..|ds| - 1], ds[|ds| - 1], progress)
  }

  ghost predicate CountsMatch(st: StreamState, ds: seq<Delivery>) {
    && st.count == Saturated(RowCount(ds))
    && (forall s :: s in st.sequences <==> RowCountOn(ds, s) > 0)
    && (forall s :: s in st.sequences ==> st.sequences[s] == Saturated(RowCountOn(ds, s)))
    && st.metadata == LastMetadata(ds)
  }

  lemma {:induction false} AllAccepted(st: StreamState, progress: bool, ds: seq<Delivery>)
    requires st.error.None? && CountsMatch(st, [])
    requires forall i :: 0 <= i < |ds| ==> !Fails(ds[i])
    ensures var end := Deliver(st, progress, ds);
            end.error.None? && end.frames == st.frames + Images(ds, progress) && CountsMatch(end, ds)
  {
    if ds != [] {
      var front, last := ds[..|ds| - 1], ds[|ds| - 1];
      AllAccepted(st, progress, front);
      OneAccepted(Deliver(st, progress, front), progress, front, last);
      assert front + [last] == ds;
    }
  }

  lemma CountsAppend(ds: seq<Delivery>, d: Delivery)
    ensures RowCount(ds + [d]) == RowCount(ds) + if IsRow(d) then 1 else 0
    ensures forall s :: RowCountOn(ds + [d], s) == RowCountOn(ds, s) + if IsRowOn(d, s) then 1 else 0
    ensures LastMetadata(ds + [d])
         == if IsMetadata(d.raw) && d.raw.envelope.metadata.value.rejected.None? then Some(d.raw.envelope.metadata.value.text)
            else LastMetadata(ds)
  {
    assert (ds + [d])[..|ds|] == ds;
  }

  lemma RowCounted(st: StreamState, progress: bool, ds: seq<Delivery>, d: Delivery, stream: Text, payload: Text)
    requires CountsMatch(st, ds) && IsRowOn(d, stream)
    ensures CountsMatch(RowEmitted(st, progress, stream, payload, d), ds + [d])
  {
    CountsAppend(ds, d);
    assert SequenceOf(st.sequences, stream) == Saturated(RowCountOn(ds, stream));
  }

  /** The counts follow the rows, written or not. */
  lemma OneCounted(st: StreamState, progress: bool, ds: seq<Delivery>, d: Delivery)
    requires st.error.None? && CountsMatch(st, ds) && !IsMalformed(d.raw)
    ensures CountsMatch(Callback(st, progress, d), ds + [d])
  {
    if IsRow(d) {
      RowCounted(st, progress, ds, d, d.raw.envelope.stream.value, d.raw.envelope.payload.value);
    } else {
      CountsAppend(ds, d);
    }
  }

  lemma OneAccepted(st: StreamState, progress: bool, ds: seq<Delivery>, d: Delivery)
    requires st.error.None? && CountsMatch(st, ds) && !Fails(d)
    ensures var st' := Callback(st, progress, d);
            && st'.error.None? && st'.frames == st.frames + Image(ds, d, progress)
            && CountsMatch(st', ds + [d])
  {
    OneCounted(st, progress, ds, d);
    CountsAppend(ds, d);
    if IsRow(d) {
      var stream := d.raw.envelope.stream.value;
      assert SequenceOf(st.sequences, stream) == Saturated(RowCountOn(ds, stream));
    }
  }

  /** Nothing is written or changed after an error. */
  lemma {:induction false} ErrorFreezes(st: StreamState, progress: bool, ds: seq<Delivery>)
    requires st.error.Some?
    ensures Deliver(st, progress, ds) == st
  {
    if ds != [] { ErrorFreezes(st, progress, ds[..|ds| - 1]); }
  }

  lemma {:induction false} DeliverConcat(st: StreamState, progress: bool, a: seq<Delivery>, b: seq<Delivery>)
    ensures Deliver(st, progress, a + b) == Deliver(Deliver(st, progress, a), progress, b)
  {
    if b == [] {
      assert a + b == a;
    } else {
      var n := |b| - 1;
      DeliverConcat(st, progress, a, b[..n]);
      assert (a + b)[..|a + b| - 1] == a + b[..n];
    }
  }

  /** The deliveries counted when `d` fails after `ds`: a row is counted before it is written. */
  function Counted(ds: seq<Delivery>, d: Delivery): seq<Delivery> {
    if IsMalformed(d.raw) then ds else ds + [d]
  }

  lemma FailedDelivery(st: StreamState, progress: bool, ds: seq<Delivery>, d: Delivery)
    requires st.error.None? && CountsMatch(st, ds) && Fails(d)
    ensures var st' := Callback(st, progress, d);
            && st'.error.Some? && Explains(d, st'.error.value) && st'.frames == st.frames
            && CountsMatch(st', Counted(ds, d))
  {
    if !IsMalformed(d.raw) { OneCounted(st, progress, ds, d); }
  }

  lemma DeliverOne(st: StreamState, progress: bool, ds: seq<Delivery>, d: Delivery)
    ensures Deliver(st, progress, ds + [d]) == Callback(Deliver(st, progress, ds), progress, d)
  {
    assert (ds + [d])[..|ds|] == ds;
  }

  lemma NothingAfterFailure(st: StreamState, progress: bool, a: seq<Delivery>, d: Delivery, b: seq<Delivery>)
    requires Deliver(st, progress, a).error.None? && CountsMatch(Deliver(st, progress, a), a) && Fails(d)
    ensures var end := Deliver(st, progress, a + [d] + b);
            && end.frames == Deliver(st, progress, a).frames && end.error.Some? && Explains(d, end.error.value)
            && CountsMatch(end, Counted(a, d))
  {
    var before := Deliver(st, progress, a);
    FailedDelivery(before, progress, a, d);
    DeliverOne(st, progress, a, d);
    DeliverConcat(st, progress, a + [d], b);
    ErrorFreezes(Callback(before, progress, d), progress, b);
  }

  lemma FaithfulUpTo(st: StreamState, progress: bool, a: seq<Delivery>, rest: seq<Delivery>)
    requires st.error.None? && CountsMatch(st, [])
    requires forall i :: 0 <= i < |a| ==> !Fails(a[i])
    requires rest != [] ==> Fails(rest[0])
    ensures var end := Deliver(st, progress, a + rest);
            && end.frames == st.frames + Images(a, progress)
            && (rest == [] ==> end.error.None? && CountsMatch(end, a))
            && (rest != [] ==>
                  end.error.Some? && Explains(rest[0], end.error.value) && CountsMatch(end, Counted(a, rest[0])))
  {
    AllAccepted(st, progress, a);
    if rest == [] {
      assert a + rest == a;
    } else {
      var d, b := rest[0], rest[1..];
      assert a + rest == a + [d] + b;
      NothingAfterFailure(st, progress, a, d, b);
    }
  }

  lemma SplitAtFailure(ds: seq<Delivery>) returns (a: seq<Delivery>, rest: seq<Delivery>)
    ensures ds == a + rest && a == ds[..Accepted(ds)] && |rest| == |ds| - Accepted(ds)
    ensures forall i :: 0 <= i < |a| ==> !Fails(a[i])
    ensures rest != [] ==> Fails(rest[0]) && rest[0] == ds[Accepted(ds)]
  {
    a, rest := ds[..Accepted(ds)], ds[Accepted(ds)..];
  }

  lemma FaithfulFrom(st: StreamState, progress: bool, ds: seq<Delivery>)
    requires st.error.None? && CountsMatch(st, [])
    ensures var end, n := Deliver(st, progress, ds), Accepted(ds);
            && end.frames == st.frames + Images(ds[..n], progress)
            && (n == |ds| ==> end.error.None? && CountsMatch(end, ds))
            && (n < |ds| ==>
                  end.error.Some? && Explains(ds[n], end.error.value) && CountsMatch(end, Counted(ds[..n], ds[n])))
  {
    var a, rest := SplitAtFailure(ds);
    FaithfulUpTo(st, progress, a, rest);
    assert rest == [] ==> a == ds;
  }

  /** For every sequence of callback payloads and pipe failures: the frames are, in order,
      the starting tick, then the images of the events before the first malformed payload or
      failed write, and none after it; that first failure is what the error slot holds, and a
      row whose write failed is the last one counted. */
  lemma StreamIsFaithful(ds: seq<Delivery>, progress: bool, ticked: bool)
    ensures var st, n := Deliver(Start(progress, ticked), progress, ds), Accepted(ds);
            && st.frames == (if progress && ticked then [ProgressTick(Ascii("data_stream"), 0, None)] else []) +
                            Images(ds[..n], progress)
            && (n == |ds| ==> st.error.None? && CountsMatch(st, ds))
            && (n < |ds| ==>
                  st.error.Some? && Explains(ds[n], st.error.value) && CountsMatch(st, Counted(ds[..n], ds[n])))
  {
    FaithfulFrom(Start(progress, ticked), progress, ds);
  }

  /** The run ended with the error its first failing delivery leaves behind. */
  ghost predicate ReportsFailure(d: Delivery, r: Result<StreamSummary, StreamRunError>) {
    r.Err? &&
    if IsMalformed(d.raw) then r.error.MalformedRow? && Has(d.raw, r.error.problem)
    else d.written.Err? && r.error == FrameWriteFailed(d.written.error)
  }

  /** The totals of a run whose every delivery was accepted. */
  ghost predicate Summarizes(ds: seq<Delivery>, summary: StreamSummary) {
    && summary.totalRows == Saturated(RowCount(ds)) && summary.metadata == LastMetadata(ds)
    && (forall s :: s in summary.perStream <==> RowCountOn(ds, s) > 0)
    && (forall s :: s in summary.perStream ==> summary.perStream[s] == Saturated(RowCountOn(ds, s)))
  }

  lemma StatusDecides(st: StreamState, status: byte)
    requires st.error.None?
    ensures var r := Finish(st, Ok(status));
            && (r.Ok? <==> status == 0)
            && (status == 1 ==> r == Err(StatusOfCallback(StaleHandle)))
            && (status == 2 ==> r == Err(StatusOfCallback(Panic)))
            && (status == 3 ==> r == Err(StatusOfCallback(WrongPayload)))
            && (status == 4 ==> r == Err(StatusOfCallback(Stopped)))
            && (status > 4 ==> r == Err(ExportStatus(status)))
  {
  }

  /** How the run ends. A failed call is reported first; then the first failing delivery,
      whatever status byte the export returns; the status byte decides only when every
      delivery was accepted, and 0 yields the row total, the per-stream totals and the last
      metadata. */
  lemma RunReports(ds: seq<Delivery>, progress: bool, ticked: bool, call: Result<byte, string>)
    ensures var n, r := Accepted(ds), Finish(Deliver(Start(progress, ticked), progress, ds), call);
            && (call.Err? ==> r == Err(Host(call.error)))
            && (call.Ok? && n < |ds| ==> ReportsFailure(ds[n], r))
            && (r.Ok? <==> call == Ok(0) && n == |ds|)
            && (r.Ok? ==> Summarizes(ds, r.value))
            && (n == |ds| ==>
                  && (call == Ok(1) ==> r == Err(StatusOfCallback(StaleHandle)))
                  && (call == Ok(2) ==> r == Err(StatusOfCallback(Panic)))
                  && (call == Ok(3) ==> r == Err(StatusOfCallback(WrongPayload)))
                  && (call == Ok(4) ==> r == Err(StatusOfCallback(Stopped)))
                  && (call.Ok? && call.value > 4 ==> r == Err(ExportStatus(call.value))))
  {
    StreamIsFaithful(ds, progress, ticked);
    var st := Deliver(Start(progress, ticked), progress, ds);
    if st.error.None? && call.Ok? { StatusDecides(st, call.value); }
  }
}
