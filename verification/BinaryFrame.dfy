/** The binary frame codec of crates/lean-rs-worker-child/benches/row_payload.rs:394-433:
    a stream name and a payload, each behind a 32-bit length, around a 64-bit sequence
    number, all big-endian. */
module BinaryFrame {
  import opened Prelude
  import opened ByteOrder
  import opened Utf8Bounding

  datatype Frame = Frame(stream: Text, sequence: u64, payload: Text)

  /** One constructor per `expect` of the decoder. */
  datatype FrameError = ShortU32 | ShortStream | ShortU64 | ShortPayload | StreamNotUtf8

  function Prefixed(data: Text): Text {
    BigEndian(|data|, 4) + data
  }

  function FrameBytes(f: Frame): Text {
    Prefixed(f.stream) + BigEndian(f.sequence, 8) + Prefixed(f.payload)
  }

  predicate Framable(f: Frame) {
    |f.stream| < U32_MODULUS && |f.payload| < U32_MODULUS
  }

  /** A frame as Rust's types allow it: the stream is a `String`. */
  predicate Encodable(f: Frame) {
    Framable(f) && ValidUtf8(f.stream)
  }

  /** `encode_binary_frame`; `None` stands for the panic on a length of 2^32 or more. */
  method EncodeBinaryFrame(stream: Text, sequence: u64, payload: Text) returns (r: Option<Text>)
    ensures var f := Frame(stream, sequence, payload);
            r == if Framable(f) then Some(FrameBytes(f)) else None
    ensures r.Some? <==> |stream| < 0x1_0000_0000 && |payload| < 0x1_0000_0000
    ensures r.Some? ==>
      r.value == BigEndian(|stream|, 4) + stream + BigEndian(sequence, 8) + BigEndian(|payload|, 4) + payload
  {
    if |stream| >= U32_MODULUS || |payload| >= U32_MODULUS { return None; }
    var bytes := [];
    bytes := bytes + BigEndian(|stream|, 4);
    bytes := bytes + stream;
    bytes := bytes + BigEndian(sequence, 8);
    bytes := bytes + BigEndian(|payload|, 4);
    bytes := bytes + payload;
    assert bytes == FrameBytes(Frame(stream, sequence, payload));
    return Some(bytes);
  }

  // ----- decoding -----

  /** The data behind a length, and what follows it. */
  function SplitPrefixed(bytes: Text, short: FrameError): Result<(Text, Text), FrameError> {
    if |bytes| < 4 then Err(ShortU32)
    else
      var n := FromBigEndian(bytes[..4]);
      if |bytes| - 4 < n then Err(short) else Ok((bytes[4..4 + n], bytes[4 + n..]))
  }

  function DecodeAfterStream(stream: Text, rest: Text): Result<Frame, FrameError> {
    if |rest| < 8 then Err(ShortU64)
    else
      var payload := SplitPrefixed(rest[8..], ShortPayload);
      if payload.Err? then Err(payload.error)
      else if !ValidUtf8(stream) then Err(StreamNotUtf8)
      else Ok(Frame(stream, FromBigEndian(rest[..8]) % U64_MODULUS, payload.value.0))
  }

  function Decoded(bytes: Text): Result<Frame, FrameError> {
    var stream := SplitPrefixed(bytes, ShortStream);
    if stream.Err? then Err(stream.error) else DecodeAfterStream(stream.value.0, stream.value.1)
  }

  /** `std::io::Cursor` over the received bytes. */
  class Cursor {
    const bytes: Text
    var position: nat

    ghost predicate Valid()
      reads this
    {
      position <= |bytes|
    }

    ghost function Rest(): Text
      reads this
      requires Valid()
    {
      bytes[position..]
    }

    constructor (bytes: Text)
      ensures Valid() && Rest() == bytes
    {
      this.bytes, position := bytes, 0;
    }

    /** All of the bytes asked for, or none and the cursor at the end. */
    method ReadExact(n: nat) returns (r: Option<Text>)
      requires Valid()
      modifies this
      ensures Valid()
      ensures r == if n <= |old(Rest())| then Some(old(Rest())[..n]) else None
      ensures Rest() == if n <= |old(Rest())| then old(Rest())[n..] else []
    {
      if n > |bytes| - position {
        position := |bytes|;
        return None;
      }
      assert bytes[position..][..n] == bytes[position..position + n];
      r := Some(bytes[position..position + n]);
      position := position + n;
    }

    method ReadU32() returns (r: Option<nat>)
      requires Valid()
      modifies this
      ensures Valid()
      ensures r == if |old(Rest())| >= 4 then Some(FromBigEndian(old(Rest())[..4])) else None
      ensures r.Some? ==> Rest() == old(Rest())[4..]
    {
      var word := ReadExact(4);
      r := if word.None? then None else Some(FromBigEndian(word.value));
    }

    method ReadU64() returns (r: Option<u64>)
      requires Valid()
      modifies this
      ensures Valid()
      ensures r == if |old(Rest())| >= 8 then Some(FromBigEndian(old(Rest())[..8]) % U64_MODULUS) else None
      ensures r.Some? ==> Rest() == old(Rest())[8..]
    {
      var word := ReadExact(8);
      r := if word.None? then None else Some(FromBigEndian(word.value) % U64_MODULUS);
    }

    /** A length, and that many bytes. */
    method ReadPrefixed(short: FrameError) returns (r: Result<Text, FrameError>)
      requires Valid()
      modifies this
      ensures Valid()
      ensures var split := SplitPrefixed(old(Rest()), short);
              if split.Ok? then r == Ok(split.value.0) && Rest() == split.value.1 else r == Err(split.error)
    {
      ghost var before := Rest();
      var n := ReadU32();
      if n.None? { return Err(ShortU32); }
      var data := ReadExact(n.value);
      if data.None? { return Err(short); }
      assert before[4..][..n.value] == before[4..4 + n.value] && before[4..][n.value..] == before[4 + n.value..];
      r := Ok(data.value);
    }
  }

  /** `decode_binary_frame`; the stream's encoding is checked only after every read. */
  method DecodeBinaryFrame(bytes: Text) returns (r: Result<Frame, FrameError>)
    ensures r == Decoded(bytes)
  {
    var cursor := new Cursor(bytes);
    var stream := cursor.ReadPrefixed(ShortStream);
    if stream.Err? { return Err(stream.error); }
    var sequence := cursor.ReadU64();
    if sequence.None? { return Err(ShortU64); }
    var payload := cursor.ReadPrefixed(ShortPayload);
    if payload.Err? { return Err(payload.error); }
    if !ValidUtf8(stream.value) { return Err(StreamNotUtf8); }
    return Ok(Frame(stream.value, sequence.value, payload.value));
  }

  // ----- the two are inverse -----

  lemma PrefixedExactly(bytes: Text, short: FrameError, data: Text, rest: Text)
    ensures SplitPrefixed(bytes, short) == Ok((data, rest))
            <==> |data| < U32_MODULUS && bytes == Prefixed(data) + rest
  {
    SpanOfWords();
    if |data| < U32_MODULUS && bytes == Prefixed(data) + rest {
      BigEndianRoundTrip(|data|, 4);
      assert bytes[..4] == BigEndian(|data|, 4);
      assert bytes[4..4 + |data|] == data && bytes[4 + |data|..] == rest;
    }
    if SplitPrefixed(bytes, short) == Ok((data, rest)) {
      BigEndianOfBytes(bytes[..4]);
      assert bytes == bytes[..4] + bytes[4..4 + |data|] + bytes[4 + |data|..];
    }
  }

  lemma WordExactly(bytes: Text, n: u64)
    requires Span(|bytes|) == U64_MODULUS
    ensures FromBigEndian(bytes) % U64_MODULUS == n <==> bytes == BigEndian(n, |bytes|)
  {
    BigEndianOfBytes(bytes);
    BigEndianExactly(bytes, n);
  }

  lemma PrefixAfter(head: Text, a: Text, b: Text)
    ensures head + a <= head + b <==> a <= b
  {
    if head + a <= head + b {
      assert (head + b)[|head|..] == b;
      assert (head + b)[..|head| + |a|] == head + a;
      assert b[..|a|] == (head + b)[|head|..|head| + |a|] == a;
    }
  }

  lemma PrefixByParts(word: Text, tail: Text, a: Text, b: Text)
    requires |word| == |a|
    ensures a + b <= word + tail <==> a == word && b <= tail
  {
    if a + b <= word + tail {
      assert (word + tail)[..|a|] == word && (a + b)[..|a|] == a;
      assert a == word;
      PrefixAfter(word, b, tail);
    }
    if a == word { PrefixAfter(word, b, tail); }
  }

  lemma AfterStreamExactly(stream: Text, rest: Text, f: Frame)
    ensures DecodeAfterStream(stream, rest) == Ok(f)
            <==> f.stream == stream && ValidUtf8(stream) && |f.payload| < U32_MODULUS
                 && BigEndian(f.sequence, 8) + Prefixed(f.payload) <= rest
  {
    if |rest| >= 8 {
      var word, tail := rest[..8], rest[8..];
      SpanOfWords();
      assert rest == word + tail;
      WordExactly(word, f.sequence);
      PrefixByParts(word, tail, BigEndian(f.sequence, 8), Prefixed(f.payload));
      PayloadExactly(tail, f.payload);
    }
  }

  lemma PayloadExactly(tail: Text, payload: Text)
    ensures var r := SplitPrefixed(tail, ShortPayload);
            r.Ok? && r.value.0 == payload <==> |payload| < U32_MODULUS && Prefixed(payload) <= tail
  {
    var r := SplitPrefixed(tail, ShortPayload);
    if r.Ok? {
      PrefixedExactly(tail, ShortPayload, r.value.0, r.value.1);
    }
    if Prefixed(payload) <= tail {
      var rest := tail[|Prefixed(payload)|..];
      assert tail == Prefixed(payload) + rest;
      PrefixedExactly(tail, ShortPayload, payload, rest);
    }
  }

  /** What the decoder accepts, exactly: the bytes that begin with the encoding of a frame,
      whatever follows it; and the frame it returns is that one. */
  lemma DecodesExactly(bytes: Text, f: Frame)
    ensures Decoded(bytes) == Ok(f) <==> Encodable(f) && FrameBytes(f) <= bytes
  {
    var body := BigEndian(f.sequence, 8) + Prefixed(f.payload);
    assert FrameBytes(f) == Prefixed(f.stream) + body;
    var r := SplitPrefixed(bytes, ShortStream);
    if r.Ok? && r.value.0 == f.stream {
      PrefixedExactly(bytes, ShortStream, f.stream, r.value.1);
      AfterStreamExactly(f.stream, r.value.1, f);
      PrefixAfter(Prefixed(f.stream), body, r.value.1);
    } else if r.Ok? {
      AfterStreamExactly(r.value.0, r.value.1, f);
    }
    if Encodable(f) && FrameBytes(f) <= bytes {
      var rest := bytes[|Prefixed(f.stream)|..];
      assert bytes == Prefixed(f.stream) + rest;
      PrefixedExactly(bytes, ShortStream, f.stream, rest);
    }
  }

  /** Decoding an encoded frame, whatever bytes follow it, returns the frame. */
  lemma DecodeUndoesEncode(f: Frame, rest: Text)
    requires Encodable(f)
    ensures Decoded(FrameBytes(f) + rest) == Ok(f)
  {
    DecodesExactly(FrameBytes(f) + rest, f);
  }

  /** Frames are self-delimiting: no frame's encoding begins another's. */
  lemma EncodingIsPrefixFree(f: Frame, g: Frame)
    requires Encodable(f) && Encodable(g) && FrameBytes(f) <= FrameBytes(g)
    ensures f == g
  {
    DecodesExactly(FrameBytes(g), f);
    DecodesExactly(FrameBytes(g), g);
  }

  lemma SplitStream(bytes: Text, f: Frame) returns (rest: Text)
    requires Framable(f) && FrameBytes(f) <= bytes
    ensures SplitPrefixed(bytes, ShortStream) == Ok((f.stream, rest))
    ensures |rest| >= 8 && Prefixed(f.payload) <= rest[8..]
  {
    var head, body := Prefixed(f.stream), BigEndian(f.sequence, 8) + Prefixed(f.payload);
    rest := bytes[|head|..];
    assert FrameBytes(f) == head + body && bytes == head + rest;
    PrefixedExactly(bytes, ShortStream, f.stream, rest);
    PrefixAfter(head, body, rest);
    assert rest[..8] == BigEndian(f.sequence, 8) && rest == rest[..8] + rest[8..];
    PrefixAfter(rest[..8], Prefixed(f.payload), rest[8..]);
  }

  lemma JoinStream(bytes: Text, stream: Text, rest: Text, payload: Text) returns (f: Frame)
    requires SplitPrefixed(bytes, ShortStream) == Ok((stream, rest)) && |rest| >= 8
    requires |payload| < U32_MODULUS && Prefixed(payload) <= rest[8..]
    ensures f.stream == stream && f.payload == payload && Framable(f) && FrameBytes(f) <= bytes
  {
    var word := rest[..8];
    f := Frame(stream, FromBigEndian(word) % U64_MODULUS, payload);
    PrefixedExactly(bytes, ShortStream, stream, rest);
    SpanOfWords();
    WordExactly(word, f.sequence);
    assert rest == word + rest[8..];
    PrefixAfter(word, Prefixed(payload), rest[8..]);
    PrefixAfter(Prefixed(stream), word + Prefixed(payload), rest);
    assert FrameBytes(f) == Prefixed(stream) + (word + Prefixed(payload));
  }

  /** The encoding error means the bytes were framed correctly around a stream name that is
      not UTF-8. */
  lemma NotUtf8Exactly(bytes: Text)
    ensures Decoded(bytes) == Err(StreamNotUtf8)
            <==> exists f: Frame :: Framable(f) && !ValidUtf8(f.stream) && FrameBytes(f) <= bytes
  {
    if f: Frame :| Framable(f) && !ValidUtf8(f.stream) && FrameBytes(f) <= bytes {
      var rest := SplitStream(bytes, f);
      PayloadExactly(rest[8..], f.payload);
    }
    if Decoded(bytes) == Err(StreamNotUtf8) {
      var stream := SplitPrefixed(bytes, ShortStream);
      var rest := stream.value.1;
      var payload := SplitPrefixed(rest[8..], ShortPayload);
      PayloadExactly(rest[8..], payload.value.0);
      var f := JoinStream(bytes, stream.value.0, rest, payload.value.0);
    }
  }

  /** The other errors, exactly, by the lengths the bytes announce: which of the four reads
      comes up short. */
  lemma ShortReadsExactly(bytes: Text)
    ensures |bytes| < 4 ==> Decoded(bytes) == Err(ShortU32)
    ensures |bytes| >= 4 ==>
      var n := FromBigEndian(bytes[..4]);
      && (Decoded(bytes) == Err(ShortStream) <==> |bytes| < 4 + n)
      && (Decoded(bytes) == Err(ShortU64) <==> 4 + n <= |bytes| < 12 + n)
      && (Decoded(bytes) == Err(ShortU32) <==> 12 + n <= |bytes| < 16 + n)
      && (Decoded(bytes) == Err(ShortPayload) <==>
            16 + n <= |bytes| && |bytes| < 16 + n + FromBigEndian(bytes[12 + n..16 + n]))
  {
    if |bytes| >= 4 {
      var n := FromBigEndian(bytes[..4]);
      if 4 + n <= |bytes| {
        var rest := bytes[4 + n..];
        if 12 + n <= |bytes| {
          assert rest[8..] == bytes[12 + n..];
          if 16 + n <= |bytes| { assert rest[8..][..4] == bytes[12 + n..16 + n]; }
        }
      }
    }
  }
}
