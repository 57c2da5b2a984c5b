/** The wire encoding of `HostSessionMode`, as serde_json writes it
    (crates/lean-rs-worker-protocol/src/protocol.rs:248-261), and why it can stand in
    for the mode inside the snapshot-cache key: it is injective and holds no NUL. */
module ModeEncoding {
  import opened Prelude

  datatype HostSessionMode =
    | Capability(package: Text, libName: Text, manifestPath: Option<Text>)
    | ShimsOnly

  const QUOTE: byte := 34
  const BACKSLASH: byte := 92

  /** How serde_json writes one byte of a string; bytes from 0x20 up, other than the quote
      and the backslash, are copied. */
  function EscapeByte(b: byte): Text {
    if b == QUOTE || b == BACKSLASH then [BACKSLASH, b]
    else if b == 8 then [BACKSLASH, 98]
    else if b == 9 then [BACKSLASH, 116]
    else if b == 10 then [BACKSLASH, 110]
    else if b == 12 then [BACKSLASH, 102]
    else if b == 13 then [BACKSLASH, 114]
    else if b < 32 then [BACKSLASH, 117, 48, 48, HexDigit(b / 16), HexDigit(b % 16)]
    else [b]
  }

  function Escape(s: Text): Text {
    if s == [] then [] else EscapeByte(s[0]) + Escape(s[1..])
  }

  /** A JSON string literal followed by the rest of the document. */
  function Quoted(s: Text, rest: Text): Text {
    [QUOTE] + Escape(s) + [QUOTE] + rest
  }

  function OptionalText(t: Option<Text>, rest: Text): Text {
    match t
    case None => Ascii("null") + rest
    case Some(s) => Quoted(s, rest)
  }

  function EncodeMode(mode: HostSessionMode): Text {
    match mode
    case ShimsOnly => Ascii("{\"kind\":\"shims_only\"}")
    case Capability(package, libName, manifestPath) =>
      Ascii("{\"kind\":\"capability\",\"package\":") +
      Quoted(package, Ascii(",\"lib_name\":") +
                      Quoted(libName, Ascii(",\"manifest_path\":") + OptionalText(manifestPath, Ascii("}"))))
  }

  // ----- reading it back -----

  /** The byte that the head of a string literal's body stands for, by the escapes of section 7
      of RFC 8259, and what follows it; `None` at the closing quote and where nothing is
      readable. Four hexadecimal digits are read for control characters only. */
  function ReadChar(s: Text): Option<(byte, Text)> {
    if s == [] || s[0] == 0x22 || s[0] < 0x20 then None
    else if s[0] != 0x5C then Some((s[0], s[1..]))
    else if |s| < 2 then None
    else if s[1] == 0x22 || s[1] == 0x5C || s[1] == 0x2F then Some((s[1], s[2..]))
    else if s[1] == 0x75 then ReadHex(s[2..])
    else
      var control := ControlNamed(s[1]);
      if control.None? then None else Some((control.value, s[2..]))
  }

  /** What `b`, `t`, `n`, `f` and `r` name. */
  function ControlNamed(letter: byte): Option<byte> {
    if letter == 'b' as int then Some(0x08)
    else if letter == 't' as int then Some(0x09)
    else if letter == 'n' as int then Some(0x0A)
    else if letter == 'f' as int then Some(0x0C)
    else if letter == 'r' as int then Some(0x0D)
    else None
  }

  function ReadHex(s: Text): Option<(byte, Text)> {
    if |s| < 4 || s[0] != 0x30 || s[1] != 0x30 || DigitOf(s[2]) >= 2 then None
    else Some((16 * DigitOf(s[2]) + DigitOf(s[3]), s[4..]))
  }

  /** The text of a string literal up to its closing quote, and what follows it. */
  function ReadString(s: Text): Option<(Text, Text)>
    decreases |s|
  {
    if s != [] && s[0] == 0x22 then Some(([], s[1..]))
    else
      var head := ReadChar(s);
      if head.None? || |head.value.1| >= |s| then None
      else
        var others := ReadString(head.value.1);
        if others.None? then None else Some(([head.value.0] + others.value.0, others.value.1))
  }

  /** A string behind `name`. */
  function ReadField(s: Text, name: Text): Option<(Text, Text)> {
    if name + [0x22] <= s then ReadString(s[|name| + 1..]) else None
  }

  function ReadMode(s: Text): Option<HostSessionMode> {
    var package := ReadField(s, Ascii("{\"kind\":\"capability\",\"package\":"));
    if package.None? then if s == Ascii("{\"kind\":\"shims_only\"}") then Some(ShimsOnly) else None
    else
      var libName := ReadField(package.value.1, Ascii(",\"lib_name\":"));
      if libName.None? then None
      else
        var manifestPath := ReadManifestPath(libName.value.1);
        if manifestPath.None? then None
        else Some(Capability(package.value.0, libName.value.0, manifestPath.value))
  }

  function ReadManifestPath(s: Text): Option<Option<Text>> {
    var path := ReadField(s, Ascii(",\"manifest_path\":"));
    if path.Some? then if path.value.1 == Ascii("}") then Some(Some(path.value.0)) else None
    else if s == Ascii(",\"manifest_path\":") + (Ascii("null") + Ascii("}")) then Some(None)
    else None
  }

  lemma EscapedAt(b: byte, rest: Text, i: nat)
    requires i < |EscapeByte(b)|
    ensures (EscapeByte(b) + rest)[i] == EscapeByte(b)[i]
    ensures (EscapeByte(b) + rest)[|EscapeByte(b)|..] == rest
  {
  }

  lemma ReadsHex(b: byte, rest: Text)
    requires b < 32
    ensures ReadHex([48, 48, HexDigit(b / 16), HexDigit(b % 16)] + rest) == Some((b, rest))
  {
    DigitReadsBack(b / 16);
    DigitReadsBack(b % 16);
    assert ([48, 48, HexDigit(b / 16), HexDigit(b % 16)] + rest)[4..] == rest;
  }

  lemma DigitReadsBack(d: nat)
    requires d < 16
    ensures DigitOf(HexDigit(d)) == d
  {
  }

  lemma ReadsEscapedByte(b: byte, rest: Text)
    ensures ReadChar(EscapeByte(b) + rest) == Some((b, rest))
  {
    EscapedAt(b, rest, 0);
    if |EscapeByte(b)| > 1 { EscapedAt(b, rest, 1); }
    if |EscapeByte(b)| == 6 {
      ReadsHex(b, rest);
      assert (EscapeByte(b) + rest)[2..] == [48, 48, HexDigit(b / 16), HexDigit(b % 16)] + rest;
    }
  }

  lemma EscapeUnfolds(s: Text, rest: Text)
    requires s != []
    ensures Escape(s) + [QUOTE] + rest == EscapeByte(s[0]) + (Escape(s[1..]) + [QUOTE] + rest)
  {
  }

  /** Reading what serde_json writes gives the text back, whatever its bytes and whatever
      follows the closing quote. */
  lemma {:induction false} ReadUndoesEscape(s: Text, rest: Text)
    ensures ReadString(Escape(s) + [QUOTE] + rest) == Some((s, rest))
  {
    var all := Escape(s) + [QUOTE] + rest;
    if s == [] {
      assert all[1..] == rest;
    } else {
      var tail := Escape(s[1..]) + [QUOTE] + rest;
      EscapeUnfolds(s, rest);
      ReadsEscapedByte(s[0], tail);
      ReadUndoesEscape(s[1..], rest);
      assert s == [s[0]] + s[1..];
    }
  }

  /** The closing quote is found unambiguously, so a quoted string is self-delimiting. */
  lemma EscapeIsSelfDelimiting(s: Text, t: Text, x: Text, y: Text)
    requires Escape(s) + [QUOTE] + x == Escape(t) + [QUOTE] + y
    ensures s == t && x == y
  {
    ReadUndoesEscape(s, x);
    ReadUndoesEscape(t, y);
  }

  lemma ReadsField(name: Text, s: Text, rest: Text)
    ensures ReadField(name + Quoted(s, rest), name) == Some((s, rest))
  {
    var all, body := name + Quoted(s, rest), Escape(s) + [QUOTE] + rest;
    assert all == name + [QUOTE] + body;
    assert all[|name| + 1..] == body && name + [0x22] <= all;
    ReadUndoesEscape(s, rest);
  }

  lemma NoFieldAt(name: Text, s: Text, i: nat)
    requires i < |s| && i <= |name| && (name + [0x22])[i] != s[i]
    ensures ReadField(s, name).None?
  {
  }

  lemma ReadsManifestPath(manifestPath: Option<Text>)
    ensures ReadManifestPath(Ascii(",\"manifest_path\":") + OptionalText(manifestPath, Ascii("}"))) == Some(manifestPath)
  {
    var name, end, none := Ascii(",\"manifest_path\":"), Ascii("}"), Ascii("null");
    if manifestPath.Some? {
      ReadsField(name, manifestPath.value, end);
    } else {
      var s := name + (none + end);
      assert s[|name|] == none[0];
      NoFieldAt(name, s, |name|);
    }
  }

  lemma ShimsIsNoCapability()
    ensures ReadField(Ascii("{\"kind\":\"shims_only\"}"), Ascii("{\"kind\":\"capability\",\"package\":")).None?
  {
    var name, s := Ascii("{\"kind\":\"capability\",\"package\":"), Ascii("{\"kind\":\"shims_only\"}");
    assert name[9] == 'c' as int && s[9] == 's' as int;
    NoFieldAt(name, s, 9);
  }

  /** Reading the document of a mode gives the mode back, in variant and in every field. */
  lemma ReadUndoesEncode(mode: HostSessionMode)
    ensures ReadMode(EncodeMode(mode)) == Some(mode)
  {
    match mode
    case ShimsOnly => ShimsIsNoCapability();
    case Capability(package, libName, manifestPath) =>
      var rest := Ascii(",\"manifest_path\":") + OptionalText(manifestPath, Ascii("}"));
      ReadsField(Ascii("{\"kind\":\"capability\",\"package\":"), package, Ascii(",\"lib_name\":") + Quoted(libName, rest));
      ReadsField(Ascii(",\"lib_name\":"), libName, rest);
      ReadsManifestPath(manifestPath);
  }

  /** Two modes with one encoding are one mode: the encoding separates the two variants and
      every field of a capability. */
  lemma EncodeModeInjective(a: HostSessionMode, b: HostSessionMode)
    requires EncodeMode(a) == EncodeMode(b)
    ensures a == b
  {
    ReadUndoesEncode(a);
    ReadUndoesEncode(b);
  }

  // ----- no NUL -----

  lemma {:induction false} EscapeIsNulFree(s: Text)
    ensures NulFree(Escape(s))
  {
    if s != [] {
      EscapeIsNulFree(s[1..]);
      assert forall i :: 0 <= i < |EscapeByte(s[0])| ==> EscapeByte(s[0])[i] != 0;
    }
  }

  lemma QuotedIsNulFree(s: Text, rest: Text)
    requires NulFree(rest)
    ensures NulFree(Quoted(s, rest))
  {
    EscapeIsNulFree(s);
  }

  /** No mode puts a NUL byte into the key, whatever its fields hold. */
  lemma EncodeModeIsNulFree(mode: HostSessionMode)
    ensures NulFree(EncodeMode(mode))
  {
    if mode.Capability? {
      var end := OptionalText(mode.manifestPath, Ascii("}"));
      assert NulFree(end) by {
        if mode.manifestPath.Some? { QuotedIsNulFree(mode.manifestPath.value, Ascii("}")); }
      }
      QuotedIsNulFree(mode.libName, Ascii(",\"manifest_path\":") + end);
      QuotedIsNulFree(mode.package, Ascii(",\"lib_name\":") + Quoted(mode.libName, Ascii(",\"manifest_path\":") + end));
    }
  }
}
