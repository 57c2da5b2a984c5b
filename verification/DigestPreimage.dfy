/** The fixture digest of crates/lean-toolchain/build.rs:56-123 and 380-386: what is fed to
    SHA-256, and how the result is written. */
module DigestPreimage {
  import opened Prelude
  import opened ByteOrder

  /** A label and the bytes of the file it names. */
  datatype Labelled = Labelled(name: Text, content: Text)

  /** An input of the build script; `None` when there is no such file. */
  datatype Input = Input(name: Text, file: Option<Text>)

  /** Lengths are 64-bit words. */
  predicate Sized(e: Labelled) {
    |e.name| < U64_MODULUS && |e.content| < U64_MODULUS
  }

  ghost predicate AllSized(es: seq<Labelled>) {
    forall i :: 0 <= i < |es| ==> Sized(es[i])
  }

  function Prefixed(t: Text): Text {
    LittleEndian(|t|, 8) + t
  }

  function Entry(e: Labelled): Text {
    Prefixed(e.name) + Prefixed(e.content)
  }

  function Preimage(es: seq<Labelled>): Text {
    if es == [] then [] else Entry(es[0]) + Preimage(es[1..])
  }

  /** An entry as it is fed: the name and the contents, each behind its length as a 64-bit
      little-endian word. */
  lemma EntryBytes(e: Labelled, rest: seq<Labelled>)
    ensures Preimage([e] + rest)
         == LittleEndian(|e.name|, 8) + e.name + LittleEndian(|e.content|, 8) + e.content + Preimage(rest)
  {
    assert ([e] + rest)[1..] == rest;
  }

  function SplitPrefixed(bytes: Text): (r: Option<(Text, Text)>)
    ensures r.Some? ==> |r.value.1| < |bytes|
  {
    if |bytes| < 8 then None
    else
      var n := FromLittleEndian(bytes[..8]);
      if |bytes| - 8 < n then None else Some((bytes[8..8 + n], bytes[8 + n..]))
  }

  function SplitEntry(bytes: Text): (r: Option<(Labelled, Text)>)
    ensures r.Some? ==> |r.value.1| < |bytes|
  {
    var name := SplitPrefixed(bytes);
    if name.None? then None
    else
      var content := SplitPrefixed(name.value.1);
      if content.None? then None
      else Some((Labelled(name.value.0, content.value.0), content.value.1))
  }

  /** The decoder that makes the preimage unambiguous. */
  function Parse(bytes: Text): Option<seq<Labelled>>
    decreases |bytes|
  {
    if bytes == [] then Some([])
    else
      var first := SplitEntry(bytes);
      if first.None? then None
      else
        var others := Parse(first.value.1);
        if others.None? then None else Some([first.value.0] + others.value)
  }

  lemma PrefixedExactly(bytes: Text, t: Text, rest: Text)
    ensures SplitPrefixed(bytes) == Some((t, rest)) <==> |t| < U64_MODULUS && bytes == Prefixed(t) + rest
  {
    SpanOfWords();
    if |t| < U64_MODULUS && bytes == Prefixed(t) + rest {
      LittleEndianRoundTrip(|t|, 8);
      assert bytes[..8] == LittleEndian(|t|, 8);
      assert bytes[8..8 + |t|] == t && bytes[8 + |t|..] == rest;
    }
    if SplitPrefixed(bytes) == Some((t, rest)) {
      LittleEndianOfBytes(bytes[..8]);
      assert bytes == bytes[..8] + bytes[8..8 + |t|] + bytes[8 + |t|..];
    }
  }

  lemma EntryExactly(bytes: Text, e: Labelled, rest: Text)
    ensures SplitEntry(bytes) == Some((e, rest)) <==> Sized(e) && bytes == Entry(e) + rest
  {
    var tail := Prefixed(e.content) + rest;
    assert Entry(e) + rest == Prefixed(e.name) + tail;
    PrefixedExactly(bytes, e.name, tail);
    PrefixedExactly(tail, e.content, rest);
    var name := SplitPrefixed(bytes);
    if name.Some? {
      PrefixedExactly(bytes, name.value.0, name.value.1);
      PrefixedExactly(name.value.1, e.content, rest);
    }
  }

  lemma AllSizedByParts(es: seq<Labelled>)
    requires es != []
    ensures AllSized(es) <==> Sized(es[0]) && AllSized(es[1..])
    ensures es == [es[0]] + es[1..]
  {
  }

  /** A byte string parses to a list exactly when it is that list's preimage. */
  lemma {:induction false} ParseExactly(bytes: Text, es: seq<Labelled>)
    ensures Parse(bytes) == Some(es) <==> AllSized(es) && bytes == Preimage(es)
    decreases |bytes|
  {
    if bytes != [] && es != [] {
      var first := SplitEntry(bytes);
      EntryExactly(bytes, es[0], Preimage(es[1..]));
      if first.Some? {
        EntryExactly(bytes, first.value.0, first.value.1);
        ParseExactly(first.value.1, es[1..]);
        AllSizedByParts(es);
      }
    }
  }

  /** Lists of any lengths with the same preimage are the same list. */
  lemma PreimageInjective(a: seq<Labelled>, b: seq<Labelled>)
    requires AllSized(a) && AllSized(b) && Preimage(a) == Preimage(b)
    ensures a == b
  {
    ParseExactly(Preimage(a), a);
    ParseExactly(Preimage(a), b);
  }

  // ----- the build script's loop -----

  predicate AllPresent(inputs: seq<Input>) {
    forall i :: 0 <= i < |inputs| ==> inputs[i].file.Some?
  }

  function Contents(inputs: seq<Input>): seq<Labelled>
    requires AllPresent(inputs)
  {
    seq(|inputs|, i requires 0 <= i < |inputs| => Labelled(inputs[i].name, inputs[i].file.value))
  }

  lemma {:induction false} PreimagePush(es: seq<Labelled>, e: Labelled)
    ensures Preimage(es + [e]) == Preimage(es) + Entry(e)
  {
    if es == [] {
      assert es + [e] == [e];
      assert Preimage([e]) == Entry(e) + Preimage([]);
    } else {
      assert (es + [e])[1..] == es[1..] + [e];
      PreimagePush(es[1..], e);
    }
  }

  lemma FourUpdates(hasher: Text, e: Labelled)
    ensures hasher + LittleEndian(|e.name|, 8) + e.name + LittleEndian(|e.content|, 8) + e.content
            == hasher + Entry(e)
  {
  }

  lemma ContentsPush(inputs: seq<Input>, i: nat)
    requires i < |inputs| && AllPresent(inputs[..i]) && inputs[i].file.Some?
    ensures AllPresent(inputs[..i + 1])
    ensures Contents(inputs[..i + 1]) == Contents(inputs[..i]) + [Labelled(inputs[i].name, inputs[i].file.value)]
  {
  }

  /** The bytes the hasher has seen at the end of the loop; `None` when a file is missing, and
      the digest is then the zero string. */
  method FeedHasher(inputs: seq<Input>) returns (r: Option<Text>)
    ensures r == if AllPresent(inputs) then Some(Preimage(Contents(inputs))) else None
  {
    var hasher := [];
    for i := 0 to |inputs|
      invariant AllPresent(inputs[..i]) && hasher == Preimage(Contents(inputs[..i]))
    {
      if inputs[i].file.None? { return None; }
      var name, bytes := inputs[i].name, inputs[i].file.value;
      ContentsPush(inputs, i);
      PreimagePush(Contents(inputs[..i]), Labelled(name, bytes));
      FourUpdates(hasher, Labelled(name, bytes));
      hasher := hasher + LittleEndian(|name|, 8);
      hasher := hasher + name;
      hasher := hasher + LittleEndian(|bytes|, 8);
      hasher := hasher + bytes;
    }
    assert inputs[..|inputs|] == inputs;
    return Some(hasher);
  }

  // ----- hex -----

  function Hex(bytes: Text): Text {
    if bytes == [] then []
    else Hex(bytes[..|bytes| - 1]) + [HexDigit(bytes[|bytes| - 1] / 16), HexDigit(bytes[|bytes| - 1] % 16)]
  }

  /** `hex`: two lower-case digits a byte. */
  method WriteHex(bytes: Text) returns (out: Text)
    ensures out == Hex(bytes)
  {
    out := [];
    for i := 0 to |bytes|
      invariant out == Hex(bytes[..i])
    {
      assert bytes[..i + 1][..i] == bytes[..i];
      out := out + [HexDigit(bytes[i] / 16), HexDigit(bytes[i] % 16)];
    }
    assert bytes[..|bytes|] == bytes;
  }

  /** Reading two digits at a time gives the bytes back. */
  lemma {:induction false} HexReadsBack(bytes: Text, i: nat)
    requires i < |bytes|
    ensures |Hex(bytes)| == 2 * |bytes|
    ensures 16 * DigitOf(Hex(bytes)[2 * i]) + DigitOf(Hex(bytes)[2 * i + 1]) == bytes[i]
  {
    var init := bytes[..|bytes| - 1];
    HexLength(init);
    if i < |init| {
      HexReadsBack(init, i);
    }
  }

  lemma {:induction false} HexLength(bytes: Text)
    ensures |Hex(bytes)| == 2 * |bytes|
  {
    if bytes != [] {
      HexLength(bytes[..|bytes| - 1]);
    }
  }

  lemma HexInjective(a: Text, b: Text)
    requires Hex(a) == Hex(b)
    ensures a == b
  {
    HexLength(a);
    HexLength(b);
    forall i | 0 <= i < |a|
      ensures a[i] == b[i]
    {
      HexReadsBack(a, i);
      HexReadsBack(b, i);
    }
  }

  /** Two fixtures with the same digest string have the same labelled contents, unless SHA-256
      collides on their preimages. */
  lemma DigestIdentifiesFixture(a: seq<Labelled>, b: seq<Labelled>, sha256: Text -> Text)
    requires AllSized(a) && AllSized(b)
    requires sha256(Preimage(a)) == sha256(Preimage(b)) ==> Preimage(a) == Preimage(b)
    ensures Hex(sha256(Preimage(a))) == Hex(sha256(Preimage(b))) <==> a == b
  {
    if Hex(sha256(Preimage(a))) == Hex(sha256(Preimage(b))) {
      HexInjective(sha256(Preimage(a)), sha256(Preimage(b)));
      PreimageInjective(a, b);
    }
  }
}
