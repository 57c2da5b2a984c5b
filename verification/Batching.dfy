/** The per-row and the batched fold over a stream's rows
    (crates/lean-rs-worker-child/benches/row_payload.rs:276-334). Serialising a frame and
    reading it back is the identity here; `checksum` is any function of a payload. */
module Batching {
  import opened Prelude

  datatype Envelope = Envelope(stream: Text, payload: Text)
  datatype RawFrame = RawFrame(stream: Text, sequence: nat, payload: Text)

  function SaturatingAdd(a: u64, b: u64): u64 {
    if a + b < U64_MODULUS then a + b else U64_MAX
  }

  /** The frames of the rows, numbered from `start`. */
  function Frames(rows: seq<Envelope>, start: nat): seq<RawFrame> {
    seq(|rows|, i requires 0 <= i < |rows| => RawFrame(rows[i].stream, start + i, rows[i].payload))
  }

  lemma FramesPush(rows: seq<Envelope>, i: nat)
    requires i < |rows|
    ensures Frames(rows[..i + 1], 0) == Frames(rows[..i], 0) + [RawFrame(rows[i].stream, i, rows[i].payload)]
  {
  }

  /** The exact sum, which the machine's sum saturates. */
  function Sum(frames: seq<RawFrame>, checksum: Text -> u64): nat {
    if frames == [] then 0
    else Sum(frames[..|frames| - 1], checksum) + checksum(frames[|frames| - 1].payload)
  }

  /** Every row once, in order, numbered from 0. */
  lemma FramesAreTheRows(rows: seq<Envelope>, i: nat)
    requires i < |rows|
    ensures |Frames(rows, 0)| == |rows|
    ensures var f := Frames(rows, 0)[i]; f.stream == rows[i].stream && f.sequence == i && f.payload == rows[i].payload
  {
  }

  /** The exact sum over the payloads of the rows. */
  function ChecksumOfRows(rows: seq<Envelope>, checksum: Text -> u64): nat {
    if rows == [] then 0
    else ChecksumOfRows(rows[..|rows| - 1], checksum) + checksum(rows[|rows| - 1].payload)
  }

  lemma {:induction false} SumOfFrames(rows: seq<Envelope>, checksum: Text -> u64)
    ensures Sum(Frames(rows, 0), checksum) == ChecksumOfRows(rows, checksum)
  {
    if rows != [] {
      var n := |rows| - 1;
      SumOfFrames(rows[..n], checksum);
      FramesPush(rows, n);
      SumPush(Frames(rows[..n], 0), RawFrame(rows[n].stream, n, rows[n].payload), checksum);
      assert rows[..n + 1] == rows;
    }
  }

  function Flatten(batches: seq<seq<RawFrame>>): seq<RawFrame> {
    if batches == [] then [] else Flatten(batches[..|batches| - 1]) + batches[|batches| - 1]
  }

  lemma SumPush(frames: seq<RawFrame>, f: RawFrame, checksum: Text -> u64)
    ensures Sum(frames + [f], checksum) == Sum(frames, checksum) + checksum(f.payload)
  {
    assert (frames + [f])[..|frames|] == frames;
  }

  lemma {:induction false} SumAppend(a: seq<RawFrame>, b: seq<RawFrame>, checksum: Text -> u64)
    ensures Sum(a + b, checksum) == Sum(a, checksum) + Sum(b, checksum)
  {
    if b == [] {
      assert a + b == a;
    } else {
      var init, last := b[..|b| - 1], b[|b| - 1];
      SumAppend(a, init, checksum);
      SumPush(a + init, last, checksum);
      assert a + b == a + init + [last];
    }
  }

  lemma FlattenPush(batches: seq<seq<RawFrame>>, batch: seq<RawFrame>)
    ensures Flatten(batches + [batch]) == Flatten(batches) + batch
  {
    assert (batches + [batch])[..|batches|] == batches;
  }

  lemma FlushKeepsTotal(sent: seq<seq<RawFrame>>, batch: seq<RawFrame>, checksum: Text -> u64)
    ensures Flatten(sent + [batch]) == Flatten(sent) + batch
    ensures SaturatingAdd(Min(U64_MAX, Sum(Flatten(sent), checksum)), Min(U64_MAX, Sum(batch, checksum)))
            == Min(U64_MAX, Sum(Flatten(sent + [batch]), checksum))
  {
    FlattenPush(sent, batch);
    SumAppend(Flatten(sent), batch, checksum);
  }

  /** `raw_value_per_row_protocol_roundtrip`, and the frames it sends. */
  method PerRowRoundtrip(rows: seq<Envelope>, checksum: Text -> u64) returns (total: u64, sent: seq<RawFrame>)
    ensures sent == Frames(rows, 0)
    ensures total == Min(U64_MAX, ChecksumOfRows(rows, checksum))
  {
    total, sent := 0, [];
    for sequence := 0 to |rows|
      invariant sent == Frames(rows[..sequence], 0)
      invariant total == Min(U64_MAX, Sum(sent, checksum))
    {
      var frame := RawFrame(rows[sequence].stream, sequence, rows[sequence].payload);
      SumPush(sent, frame, checksum);
      total := SaturatingAdd(total, checksum(frame.payload));
      sent := sent + [frame];
      FramesPush(rows, sequence);
    }
    assert rows[..|rows|] == rows;
    SumOfFrames(rows, checksum);
  }

  /** `raw_value_batch_roundtrip`: the batch is taken, leaving it empty. */
  method BatchRoundtrip(batch: seq<RawFrame>, checksum: Text -> u64) returns (total: u64, left: seq<RawFrame>)
    ensures total == Min(U64_MAX, Sum(batch, checksum)) && left == []
  {
    total, left := 0, [];
    for i := 0 to |batch|
      invariant total == Min(U64_MAX, Sum(batch[..i], checksum))
    {
      SumPush(batch[..i], batch[i], checksum);
      assert batch[..i] + [batch[i]] == batch[..i + 1];
      total := SaturatingAdd(total, checksum(batch[i].payload));
    }
    assert batch[..|batch|] == batch;
  }

  /** How the batches are cut: full ones of `size`, then at most one shorter one; a size of 0
      is never reached, so everything goes in one batch. */
  ghost predicate CutBy(batches: seq<seq<RawFrame>>, size: nat) {
    && (forall i :: 0 <= i < |batches| ==> 0 < |batches[i]|)
    && (size == 0 ==> |batches| <= 1)
    && (size > 0 ==> forall i :: 0 <= i < |batches| ==> |batches[i]| <= size)
    && (forall i :: 0 <= i < |batches| - 1 ==> |batches[i]| == size)
  }

  lemma CutPush(batches: seq<seq<RawFrame>>, batch: seq<RawFrame>, size: nat)
    requires forall i :: 0 <= i < |batches| ==> |batches[i]| == size
    requires size == 0 ==> batches == []
    requires 0 < |batch| && (size > 0 ==> |batch| <= size)
    ensures CutBy(batches + [batch], size)
  {
  }

  /** What the loop keeps: the first `n` rows are in the full batches sent and the one at hand. */
  ghost predicate Gathered(frames: seq<RawFrame>, size: nat, sent: seq<seq<RawFrame>>, batch: seq<RawFrame>) {
    && Flatten(sent) + batch == frames
    && (size > 0 ==> |batch| < size)
    && (size == 0 ==> sent == [])
    && (forall i :: 0 <= i < |sent| ==> |sent[i]| == size)
  }

  lemma GatherOne(frames: seq<RawFrame>, size: nat, sent: seq<seq<RawFrame>>, batch: seq<RawFrame>, f: RawFrame)
    requires Gathered(frames, size, sent, batch)
    ensures if |batch| + 1 == size then Gathered(frames + [f], size, sent + [batch + [f]], [])
            else Gathered(frames + [f], size, sent, batch + [f])
  {
    FlattenPush(sent, batch + [f]);
    assert Flatten(sent) + (batch + [f]) == frames + [f];
    assert Flatten(sent + [batch + [f]]) + [] == Flatten(sent + [batch + [f]]);
  }

  /** `raw_value_batched_protocol_roundtrip`, and the batches it sends. For every batch size,
      0 included: the same total as row by row, and every row sent exactly once, in order. */
  method BatchedRoundtrip(rows: seq<Envelope>, batchSize: nat, checksum: Text -> u64)
    returns (total: u64, sent: seq<seq<RawFrame>>)
    ensures Flatten(sent) == Frames(rows, 0) && CutBy(sent, batchSize)
    ensures total == Min(U64_MAX, ChecksumOfRows(rows, checksum))
  {
    total, sent := 0, [];
    var batch := [];
    for sequence := 0 to |rows|
      invariant Gathered(Frames(rows[..sequence], 0), batchSize, sent, batch)
      invariant total == Min(U64_MAX, Sum(Flatten(sent), checksum))
    {
      var frame := RawFrame(rows[sequence].stream, sequence, rows[sequence].payload);
      FramesPush(rows, sequence);
      GatherOne(Frames(rows[..sequence], 0), batchSize, sent, batch, frame);
      batch := batch + [frame];
      if |batch| == batchSize {
        FlushKeepsTotal(sent, batch, checksum);
        sent := sent + [batch];
        var sum;
        sum, batch := BatchRoundtrip(batch, checksum);
        total := SaturatingAdd(total, sum);
      }
    }
    assert rows[..|rows|] == rows;
    if batch != [] {
      FlushKeepsTotal(sent, batch, checksum);
      CutPush(sent, batch, batchSize);
      sent := sent + [batch];
      var sum;
      sum, batch := BatchRoundtrip(batch, checksum);
      total := SaturatingAdd(total, sum);
    } else {
      assert Flatten(sent) + [] == Flatten(sent);
    }
    SumOfFrames(rows, checksum);
  }

  /** The totals of any two ways of cutting the same frames agree, because saturating
      addition of saturated parts is the saturated whole. */
  lemma {:induction false} CuttingKeepsTotal(batches: seq<seq<RawFrame>>, checksum: Text -> u64)
    ensures FoldBatches(batches, checksum) == Min(U64_MAX, Sum(Flatten(batches), checksum))
  {
    if batches != [] {
      var init, last := batches[..|batches| - 1], batches[|batches| - 1];
      CuttingKeepsTotal(init, checksum);
      SumAppend(Flatten(init), last, checksum);
      FoldRowsIsSaturatedSum(last, checksum);
    }
  }

  function FoldRows(frames: seq<RawFrame>, checksum: Text -> u64): u64 {
    if frames == [] then 0
    else SaturatingAdd(FoldRows(frames[..|frames| - 1], checksum), checksum(frames[|frames| - 1].payload))
  }

  function FoldBatches(batches: seq<seq<RawFrame>>, checksum: Text -> u64): u64 {
    if batches == [] then 0
    else SaturatingAdd(FoldBatches(batches[..|batches| - 1], checksum),
                       FoldRows(batches[|batches| - 1], checksum))
  }

  lemma {:induction false} FoldRowsIsSaturatedSum(frames: seq<RawFrame>, checksum: Text -> u64)
    ensures FoldRows(frames, checksum) == Min(U64_MAX, Sum(frames, checksum))
  {
    if frames != [] {
      FoldRowsIsSaturatedSum(frames[..|frames| - 1], checksum);
    }
  }

  /** Batching is transparent: however the rows are cut, the batched fold is the row fold. */
  lemma BatchingIsTransparent(rows: seq<Envelope>, batches: seq<seq<RawFrame>>, checksum: Text -> u64)
    requires Flatten(batches) == Frames(rows, 0)
    ensures FoldBatches(batches, checksum) == FoldRows(Frames(rows, 0), checksum)
  {
    CuttingKeepsTotal(batches, checksum);
    FoldRowsIsSaturatedSum(Frames(rows, 0), checksum);
  }
}
