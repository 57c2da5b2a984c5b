/** Cutting UTF-8 texts to a byte budget: `bound_rendered_info`
    (crates/lean-rs-worker-child/src/child.rs:2708-2723) and `bound_bootstrap_text`
    (crates/lean-rs-worker-parent/src/capability.rs:2036-2047), with `str::is_char_boundary`
    and `String::pop` over the encoding of section 3 of RFC 3629. */
module Utf8Bounding {
  import opened Prelude

  // ----- the encoding -----

  /** A Unicode scalar value: a code point that is not a surrogate. */
  type Scalar = c: int | 0 <= c < 0xD800 || 0xE000 <= c <= 0x10_FFFF

  /** The table of section 3 of RFC 3629. */
  function EncodeChar(c: Scalar): (bs: Text)
    ensures 1 <= |bs| <= 4
  {
    if c < 0x80 then [c]
    else if c < 0x800 then [0xC0 + c / 64, 0x80 + c % 64]
    else if c < 0x1_0000 then [0xE0 + c / 4096, 0x80 + c / 64 % 64, 0x80 + c % 64]
    else [0xF0 + c / 262144, 0x80 + c / 4096 % 64, 0x80 + c / 64 % 64, 0x80 + c % 64]
  }

  /** The examples of section 7 of RFC 3629. */
  lemma Rfc3629Examples()
    ensures EncodeChar(0x41) == [0x41] && EncodeChar(0x391) == [0xCE, 0x91]
    ensures EncodeChar(0x2262) == [0xE2, 0x89, 0xA2] && EncodeChar(0xD55C) == [0xED, 0x95, 0x9C]
    ensures EncodeChar(0x2_33B4) == [0xF0, 0xA3, 0x8E, 0xB4]
  {
  }

  function Utf8(cs: seq<Scalar>): Text {
    if cs == [] then [] else EncodeChar(cs[0]) + Utf8(cs[1..])
  }

  predicate Continuation(b: byte) {
    0x80 <= b < 0xC0
  }

  /** Bytes of the character at the head of `s`, by the syntax of section 4 of RFC 3629;
      0 when none starts there. */
  function HeadLen(s: Text): (n: nat)
    ensures n <= 4 && n <= |s|
    ensures forall i :: 0 < i < n ==> Continuation(s[i])
    ensures n > 0 ==> !Continuation(s[0])
  {
    if s == [] then 0
    else if s[0] < 0x80 then 1
    else if |s| < 2 || !Continuation(s[1]) then 0
    else if 0xC2 <= s[0] < 0xE0 then 2
    else if |s| < 3 || !Continuation(s[2]) then 0
    else if 0xE0 <= s[0] < 0xF0 then
      if (s[0] == 0xE0 && s[1] < 0xA0) || (s[0] == 0xED && s[1] >= 0xA0) then 0 else 3
    else if |s| < 4 || !Continuation(s[3]) then 0
    else if 0xF0 <= s[0] < 0xF5 then
      if (s[0] == 0xF0 && s[1] < 0x90) || (s[0] == 0xF4 && s[1] >= 0x90) then 0 else 4
    else 0
  }

  /** What `str::from_utf8` accepts. */
  predicate ValidUtf8(s: Text) {
    s == [] || (HeadLen(s) > 0 && ValidUtf8(s[HeadLen(s)..]))
  }

  /** Reassembling the bits of a two-, three- or four-byte character. */
  function Two(a: nat, b: nat): (c: Scalar)
    requires 2 <= a < 32 && b < 64
    ensures EncodeChar(c) == [0xC0 + a, 0x80 + b]
  {
    64 * a + b
  }

  lemma LastGroup(q: nat, r: nat)
    requires r < 64
    ensures (64 * q + r) / 64 == q && (64 * q + r) % 64 == r
  {
  }

  /** Shifting by six bits twice is shifting by twelve. */
  lemma TwoShifts(n: nat)
    ensures n / 4096 == n / 64 / 64 && n / 262144 == n / 4096 / 64
  {
  }

  function Three(a: nat, b: nat, d: nat): (c: Scalar)
    requires a < 16 && b < 64 && d < 64
    requires (a == 0 ==> b >= 32) && (a == 13 ==> b < 32)
    ensures EncodeChar(c) == [0xE0 + a, 0x80 + b, 0x80 + d]
  {
    var high := 64 * a + b;
    LastGroup(a, b);
    LastGroup(high, d);
    TwoShifts(64 * high + d);
    64 * high + d
  }

  lemma FourGroups(a: nat, b: nat, d: nat, e: nat, high: nat, middle: nat, n: nat)
    requires b < 64 && d < 64 && e < 64
    requires high == 64 * a + b && middle == 64 * high + d && n == 64 * middle + e
    ensures n / 262144 == a && n / 4096 % 64 == b && n / 64 % 64 == d && n % 64 == e
  {
    LastGroup(a, b);
    LastGroup(high, d);
    LastGroup(middle, e);
    TwoShifts(n);
  }

  function Four(a: nat, b: nat, d: nat, e: nat): (c: Scalar)
    requires a <= 4 && b < 64 && d < 64 && e < 64
    requires (a == 0 ==> b >= 16) && (a == 4 ==> b < 16)
    ensures EncodeChar(c) == [0xF0 + a, 0x80 + b, 0x80 + d, 0x80 + e]
  {
    var high := 64 * a + b;
    var middle := 64 * high + d;
    FourGroups(a, b, d, e, high, middle, 64 * middle + e);
    64 * middle + e
  }

  function DecodeHead(s: Text): (c: Scalar)
    requires HeadLen(s) > 0
    ensures EncodeChar(c) == s[..HeadLen(s)]
  {
    if HeadLen(s) == 1 then s[0]
    else if HeadLen(s) == 2 then Two(s[0] - 0xC0, s[1] - 0x80)
    else if HeadLen(s) == 3 then Three(s[0] - 0xE0, s[1] - 0x80, s[2] - 0x80)
    else Four(s[0] - 0xF0, s[1] - 0x80, s[2] - 0x80, s[3] - 0x80)
  }

  function DecodeUtf8(s: Text): (cs: seq<Scalar>)
    requires ValidUtf8(s)
  {
    if s == [] then [] else [DecodeHead(s)] + DecodeUtf8(s[HeadLen(s)..])
  }

  lemma JoinEncoded(s: Text, n: nat, c: Scalar, cs: seq<Scalar>)
    requires n <= |s| && EncodeChar(c) == s[..n] && Utf8(cs) == s[n..]
    ensures Utf8([c] + cs) == s
  {
    assert ([c] + cs)[1..] == cs;
    assert s == s[..n] + s[n..];
  }

  lemma HeadOfEncoded(c: Scalar, rest: Text)
    ensures HeadLen(EncodeChar(c) + rest) == |EncodeChar(c)|
  {
    var s := EncodeChar(c) + rest;
    assert s[..|EncodeChar(c)|] == EncodeChar(c);
    assert forall i :: 0 <= i < |EncodeChar(c)| ==> s[i] == EncodeChar(c)[i];
    if c < 0x80 {
    } else if c < 0x800 {
    } else if c < 0x1_0000 {
      assert s[0] == 0xE0 + c / 4096 && s[1] == 0x80 + c / 64 % 64;
    } else {
      assert s[0] == 0xF0 + c / 262144 && s[1] == 0x80 + c / 4096 % 64;
    }
  }

  /** Validity is exactly being the encoding of some scalar values: one half. */
  lemma {:induction false} EncodedIsValid(cs: seq<Scalar>)
    ensures ValidUtf8(Utf8(cs))
  {
    if cs != [] {
      HeadOfEncoded(cs[0], Utf8(cs[1..]));
      assert Utf8(cs)[HeadLen(Utf8(cs))..] == Utf8(cs[1..]);
      EncodedIsValid(cs[1..]);
    }
  }

  /** The other half. */
  lemma {:induction false} ValidIsEncoded(s: Text)
    requires ValidUtf8(s)
    ensures Utf8(DecodeUtf8(s)) == s
  {
    if s != [] {
      var n := HeadLen(s);
      ValidIsEncoded(s[n..]);
      JoinEncoded(s, n, DecodeHead(s), DecodeUtf8(s[n..]));
    }
  }

  // ----- boundaries -----

  /** `str::is_char_boundary`: false past the end. */
  predicate IsCharBoundary(s: Text, i: nat) {
    i == 0 || i == |s| || (i < |s| && !Continuation(s[i]))
  }

  lemma HeadOfPrefix(s: Text, i: nat)
    requires i <= |s|
    ensures HeadLen(s[..i]) == if HeadLen(s) <= i then HeadLen(s) else 0
  {
  }

  /** In a valid text, a position is a boundary exactly when what precedes it is valid. */
  lemma {:induction false} BoundaryIsCharEdge(s: Text, i: nat)
    requires ValidUtf8(s) && i <= |s|
    ensures IsCharBoundary(s, i) <==> ValidUtf8(s[..i])
    decreases |s|
  {
    var n := HeadLen(s);
    if 0 < i {
      HeadOfPrefix(s, i);
      if n <= i {
        BoundaryIsCharEdge(s[n..], i - n);
        assert s[..i][n..] == s[n..][..i - n];
        assert i < |s| ==> s[i] == s[n..][i - n];
      }
    }
  }

  /** A character is at most four bytes, so a boundary is never more than three bytes back. */
  lemma {:induction false} BoundaryWithinFour(s: Text, i: nat) returns (j: nat)
    requires ValidUtf8(s) && i <= |s|
    ensures j <= i < j + 4 && IsCharBoundary(s, j)
    decreases |s|
  {
    var n := HeadLen(s);
    if i < n || s == [] {
      j := 0;
    } else {
      var k := BoundaryWithinFour(s[n..], i - n);
      j := k + n;
      assert j < |s| ==> s[j] == s[n..][k];
    }
  }

  // ----- bound_rendered_info -----

  /** The longest prefix of whole characters within the budget. */
  method BoundRenderedInfo(value: Text, maxBytes: nat) returns (text: Text, truncated: bool)
    requires ValidUtf8(value)
    ensures truncated <==> |value| > maxBytes
    ensures if truncated then |text| <= maxBytes < |text| + 4 else text == value
    ensures text <= value && ValidUtf8(text)
    ensures forall k :: |text| < k <= maxBytes && k <= |value| ==> !ValidUtf8(value[..k])
  {
    if |value| <= maxBytes {
      return value, false;
    }
    var end: nat := maxBytes;
    while !IsCharBoundary(value, end)
      invariant end <= maxBytes
      invariant forall k :: end < k <= maxBytes ==> !IsCharBoundary(value, k)
      decreases end
    {
      end := end - 1;
    }
    var edge := BoundaryWithinFour(value, maxBytes);
    forall k | 0 <= k <= maxBytes
      ensures IsCharBoundary(value, k) <==> ValidUtf8(value[..k])
    {
      BoundaryIsCharEdge(value, k);
    }
    return value[..end], true;
  }

  // ----- bound_bootstrap_text -----

  /** The last boundary at or before `i`. */
  function LastEdge(s: Text, i: nat): (j: nat)
    requires i <= |s|
    ensures j <= i && IsCharBoundary(s, j)
    ensures forall k :: j < k <= i ==> !IsCharBoundary(s, k)
  {
    if IsCharBoundary(s, i) then i else LastEdge(s, i - 1)
  }

  /** `String::pop`: without the last character; empty texts stay empty. */
  function Pop(s: Text): Text {
    if s == [] then s else s[..LastEdge(s, |s| - 1)]
  }

  function Pops(s: Text, k: nat): Text {
    if k == 0 then s else Pop(Pops(s, k - 1))
  }

  lemma Utf8Append(cs: seq<Scalar>, c: Scalar)
    ensures Utf8(cs + [c]) == Utf8(cs) + EncodeChar(c)
  {
    if cs == [] {
      assert Utf8([c]) == EncodeChar(c) + Utf8([]);
      assert Utf8([c]) == EncodeChar(c);
    } else {
      assert (cs + [c])[1..] == cs[1..] + [c];
      Utf8Append(cs[1..], c);
    }
  }

  lemma TailOfEncoded(c: Scalar)
    ensures !Continuation(EncodeChar(c)[0])
    ensures forall i :: 0 < i < |EncodeChar(c)| ==> Continuation(EncodeChar(c)[i])
  {
    HeadOfEncoded(c, []);
    assert EncodeChar(c) + [] == EncodeChar(c);
  }

  lemma PopCutsTail(a: Text, b: Text)
    requires b != [] && !Continuation(b[0])
    requires forall i :: 0 < i < |b| ==> Continuation(b[i])
    ensures Pop(a + b) == a
  {
    var s := a + b;
    var j := LastEdge(s, |s| - 1);
    assert s[|a|] == b[0] && IsCharBoundary(s, |a|);
    assert forall k :: |a| < k < |s| ==> s[k] == b[k - |a|];
    assert j == |a| && s[..|a|] == a;
  }

  /** `Pop` removes exactly the last character. */
  lemma PopDropsLastChar(cs: seq<Scalar>, c: Scalar)
    ensures Pop(Utf8(cs + [c])) == Utf8(cs)
  {
    Utf8Append(cs, c);
    TailOfEncoded(c);
    PopCutsTail(Utf8(cs), EncodeChar(c));
  }

  /** Popping never turns a position into a boundary: after any number of pops, a position is
      a boundary exactly when it was one to begin with and is still within the text. */
  lemma {:induction false} PoppingMakesNoBoundary(s: Text, k: nat, i: nat)
    ensures Pops(s, k) <= s
    ensures IsCharBoundary(Pops(s, k), i) <==> IsCharBoundary(s, i) && i <= |Pops(s, k)|
  {
    if k > 0 {
      PoppingMakesNoBoundary(s, k - 1, i);
      var t := Pops(s, k - 1);
      if t != [] {
        var j := LastEdge(t, |t| - 1);
        assert Pops(s, k) == t[..j];
      }
    }
  }

  const LIMIT := 1024
  const ELLIPSIS: Text := Ascii("...")

  /** `bound_bootstrap_text`, allowed `fuel` pops; `None` means it is still looping then. The
      loop either does not run at all or never ends, however much fuel it is given: it does
      not end exactly when the text is over the limit and byte 1024 is inside a character. */
  method BoundBootstrapText(text: Text, fuel: nat) returns (r: Option<Text>)
    requires ValidUtf8(text)
    ensures r.None? <==> |text| > 1024 && !ValidUtf8(text[..1024])
    ensures r.Some? ==> r.value == if |text| <= 1024 then text else text[..1024] + [46, 46, 46]
  {
    if |text| <= LIMIT {
      return Some(text);
    }
    BoundaryIsCharEdge(text, LIMIT);
    var t, pops := text, 0;
    while !IsCharBoundary(t, LIMIT)
      invariant pops <= fuel && t == Pops(text, pops)
      invariant IsCharBoundary(text, LIMIT) ==> pops == 0
      decreases fuel - pops
    {
      PoppingMakesNoBoundary(text, pops, LIMIT);
      if pops == fuel { return None; }
      t, pops := Pop(t), pops + 1;
    }
    PoppingMakesNoBoundary(text, pops, LIMIT);
    assert ELLIPSIS == [46, 46, 46];
    return Some(t[..LIMIT] + ELLIPSIS);
  }

  // ----- an input on which it does not end -----

  /** 1023 letters and then one two-byte character. */
  const STRADDLING: seq<Scalar> := seq(1023, _ => 0x61) + [0xE9]

  lemma {:induction false} EncodedLetters(n: nat)
    ensures |Utf8(seq(n, _ => 0x61))| == n
  {
    if n > 0 {
      assert seq(n, _ => 0x61 as Scalar)[1..] == seq(n - 1, _ => 0x61 as Scalar);
      EncodedLetters(n - 1);
    }
  }

  /** No number of pops brings this text to the loop's exit. */
  lemma BootstrapLoopsOnAStraddlingCharacter(k: nat)
    ensures var text := Utf8(STRADDLING);
            ValidUtf8(text) && |text| == 1025 && !IsCharBoundary(Pops(text, k), LIMIT)
  {
    var letters := seq(1023, _ => 0x61 as Scalar);
    EncodedIsValid(STRADDLING);
    EncodedLetters(1023);
    Utf8Append(letters, 0xE9);
    TailOfEncoded(0xE9);
    assert Utf8(STRADDLING)[1024] == EncodeChar(0xE9)[1];
    PoppingMakesNoBoundary(Utf8(STRADDLING), k, LIMIT);
  }
}
