/** The bytes `module_query_cache_key` feeds to SHA-256
    (crates/lean-rs-worker-child/src/child.rs:2605-2668), and why equal bytes mean equal
    inputs. SHA-256 itself is taken to be free of collisions, so a digest is identified
    with its preimage. */
module SnapshotCacheKey {
  import opened Prelude
  import opened ByteOrder
  import opened ModeEncoding

  datatype SessionImportProfile = ExportedPublic | Server | Private | FullPrivateCompat

  /** `LeanWorkerSessionImportProfile::label`. */
  function Label(profile: SessionImportProfile): Text {
    match profile
    case ExportedPublic => Ascii("exported-public")
    case Server => Ascii("server")
    case Private => Ascii("private")
    case FullPrivateCompat => Ascii("full-private-compat")
  }

  /** `lean_toolchain::ToolchainFingerprint`. */
  datatype Toolchain = Toolchain(leanVersion: Text, resolvedVersion: Text, headerSha256: Text,
                                 fixtureSha256: Text, hostTriple: Text)

  /** `LeanWorkerElabOptions`; `usize` is 64 bits wide on the supported hosts. */
  datatype ElabOptions = ElabOptions(namespaceContext: Text, fileLabel: Text,
                                     heartbeatLimit: u64, diagnosticByteLimit: u64)

  /** Everything that reaches the hasher. */
  datatype KeyInputs = KeyInputs(projectRoot: Text, mode: HostSessionMode, source: Text, imports: seq<Text>,
                                 importProfile: SessionImportProfile, options: ElabOptions,
                                 fileIdentity: Text, toolchain: Toolchain)
  {
    /** No text field holds a NUL byte; the mode may hold anything. */
    ghost predicate NulFreeFields() {
      && NulFree(projectRoot) && NulFree(source) && NulFree(fileIdentity)
      && (forall i :: 0 <= i < |imports| ==> NulFree(imports[i]))
      && NulFree(options.namespaceContext) && NulFree(options.fileLabel)
      && NulFree(toolchain.leanVersion) && NulFree(toolchain.resolvedVersion)
      && NulFree(toolchain.headerSha256) && NulFree(toolchain.fixtureSha256) && NulFree(toolchain.hostTriple)
    }
  }

  const API_VERSION := "lean-rs.module-query-cache.v3"

  function Marker(name: string): Text {
    [0] + Ascii(name) + [0]
  }

  /** Texts, each followed by one NUL. */
  function Terminated(texts: seq<Text>): Text {
    if texts == [] then [] else texts[0] + [0] + Terminated(texts[1..])
  }

  function ProjectSegments(k: KeyInputs): seq<Text> {
    [Ascii(API_VERSION), Ascii("project"), k.projectRoot, Ascii("mode")]
  }

  function FileSegments(k: KeyInputs): seq<Text> {
    [EncodeMode(k.mode), Ascii("file"), k.fileIdentity, Ascii("source")]
  }

  const IMPORTS_MARKER: Text := Ascii("imports")

  /** The session's project and mode, the file and its source. */
  function SourceSegments(k: KeyInputs): seq<Text> {
    ProjectSegments(k) + FileSegments(k) + [k.source, IMPORTS_MARKER]
  }

  /** The profile and the toolchain. */
  function ToolchainSegments(k: KeyInputs): seq<Text> {
    [[], Ascii("import_profile"), Label(k.importProfile), Ascii("toolchain")] + VersionSegments(k.toolchain)
  }

  function VersionSegments(toolchain: Toolchain): seq<Text> {
    [toolchain.leanVersion, toolchain.resolvedVersion, toolchain.headerSha256, toolchain.fixtureSha256]
  }

  function OptionSegments(k: KeyInputs): seq<Text> {
    [k.toolchain.hostTriple, Ascii("options"), k.options.namespaceContext, k.options.fileLabel]
  }

  function Segments(k: KeyInputs): seq<Text> {
    SourceSegments(k) + k.imports + ToolchainSegments(k) + OptionSegments(k)
  }

  function NumericTail(options: ElabOptions): (t: Text)
    ensures |t| == 16
  {
    LittleEndian(options.heartbeatLimit, 8) + LittleEndian(options.diagnosticByteLimit, 8)
  }

  /** The preimage seen as NUL-terminated segments and a 16-byte tail. */
  function Preimage(k: KeyInputs): Text {
    Terminated(Segments(k)) + NumericTail(k.options)
  }

  /** The whole preimage, text by text: what the hasher is fed between the first byte and the
      numbers, each text followed by one NUL. */
  lemma PreimageBytes(k: KeyInputs)
    ensures Preimage(k)
         == Terminated([Ascii("lean-rs.module-query-cache.v3"), Ascii("project"), k.projectRoot,
                        Ascii("mode"), EncodeMode(k.mode), Ascii("file"), k.fileIdentity,
                        Ascii("source"), k.source, Ascii("imports")] +
                       k.imports +
                       [[], Ascii("import_profile"), Label(k.importProfile),
                        Ascii("toolchain"), k.toolchain.leanVersion, k.toolchain.resolvedVersion,
                        k.toolchain.headerSha256, k.toolchain.fixtureSha256, k.toolchain.hostTriple,
                        Ascii("options"), k.options.namespaceContext, k.options.fileLabel]) +
            LittleEndian(k.options.heartbeatLimit, 8) + LittleEndian(k.options.diagnosticByteLimit, 8)
  {
    assert SourceSegments(k)
        == [Ascii("lean-rs.module-query-cache.v3"), Ascii("project"), k.projectRoot, Ascii("mode"), EncodeMode(k.mode),
            Ascii("file"), k.fileIdentity, Ascii("source"), k.source, Ascii("imports")];
    var last := [[], Ascii("import_profile"), Label(k.importProfile), Ascii("toolchain"), k.toolchain.leanVersion,
                 k.toolchain.resolvedVersion, k.toolchain.headerSha256, k.toolchain.fixtureSha256, k.toolchain.hostTriple,
                 Ascii("options"), k.options.namespaceContext, k.options.fileLabel];
    assert ToolchainSegments(k) + OptionSegments(k) == last;
    Regroup(SourceSegments(k) + k.imports, ToolchainSegments(k), OptionSegments(k));
  }

  lemma {:induction false} TerminatedAppend(texts: seq<Text>, t: Text)
    ensures Terminated(texts + [t]) == Terminated(texts) + t + [0]
  {
    if texts == [] {
      assert [t][1..] == [];
    } else {
      TerminatedAppend(texts[1..], t);
      assert (texts + [t])[1..] == texts[1..] + [t];
    }
  }

  /** A marker closes the open text, contributes its own segment, and opens the next. */
  lemma MarkerCloses(texts: seq<Text>, open: Text, name: string)
    ensures Terminated(texts) + open + Marker(name) == Terminated(texts + [open, Ascii(name)])
  {
    TerminatedAppend(texts, open);
    TerminatedAppend(texts + [open], Ascii(name));
    assert texts + [open] + [Ascii(name)] == texts + [open, Ascii(name)];
  }

  /** The hasher's updates in program order. The loop over imports and the markers with
      NULs on both sides add up to the segment view. */
  method FeedHasher(k: KeyInputs) returns (fed: Text)
    ensures fed == Preimage(k)
  {
    fed := FeedSource(k);
    fed := FeedImports(k.imports, fed, SourceSegments(k));
    fed := FeedToolchain(k, fed, SourceSegments(k) + k.imports);
    fed := FeedOptions(k, fed, SourceSegments(k) + k.imports + ToolchainSegments(k));
    ghost var segments := fed;
    fed := fed + LittleEndian(k.options.heartbeatLimit, 8);
    fed := fed + LittleEndian(k.options.diagnosticByteLimit, 8);
    assert fed == segments + NumericTail(k.options);
  }

  method FeedSource(k: KeyInputs) returns (fed: Text)
    ensures fed == Terminated(SourceSegments(k))
  {
    fed := FeedProject(k);
    fed := FeedFile(k, fed, ProjectSegments(k));
    fed := FeedMarker(ProjectSegments(k) + FileSegments(k), fed, k.source, "imports");
  }

  method FeedProject(k: KeyInputs) returns (fed: Text)
    ensures fed == Terminated(ProjectSegments(k))
  {
    ghost var done: seq<Text> := [];
    fed := FeedMarker(done, [], Ascii(API_VERSION), "project");
    done := done + [Ascii(API_VERSION), Ascii("project")];
    fed := FeedMarker(done, fed, k.projectRoot, "mode");
    assert done + [k.projectRoot, Ascii("mode")] == ProjectSegments(k);
  }

  method FeedFile(k: KeyInputs, before: Text, ghost done: seq<Text>) returns (fed: Text)
    requires before == Terminated(done)
    ensures fed == Terminated(done + FileSegments(k))
  {
    fed := FeedMarker(done, before, EncodeMode(k.mode), "file");
    ghost var half := [EncodeMode(k.mode), Ascii("file")];
    fed := FeedMarker(done + half, fed, k.fileIdentity, "source");
    Regroup(done, half, [k.fileIdentity, Ascii("source")]);
    assert half + [k.fileIdentity, Ascii("source")] == FileSegments(k);
  }

  method FeedImports(imports: seq<Text>, before: Text, ghost done: seq<Text>) returns (fed: Text)
    requires before == Terminated(done)
    ensures fed == Terminated(done + imports)
  {
    fed := before;
    assert done + imports[..0] == done;
    for i := 0 to |imports|
      invariant fed == Terminated(done + imports[..i])
    {
      fed := FeedText(done + imports[..i], fed, imports[i]);
      Regroup(done, imports[..i], [imports[i]]);
      assert imports[..i] + [imports[i]] == imports[..i + 1];
    }
    assert imports[..|imports|] == imports;
  }

  method FeedToolchain(k: KeyInputs, before: Text, ghost done: seq<Text>) returns (fed: Text)
    requires before == Terminated(done)
    ensures fed == Terminated(done + ToolchainSegments(k))
  {
    fed := FeedMarker(done, before, [], "import_profile");
    ghost var half := [[], Ascii("import_profile")];
    fed := FeedMarker(done + half, fed, Label(k.importProfile), "toolchain");
    Regroup(done, half, [Label(k.importProfile), Ascii("toolchain")]);
    half := half + [Label(k.importProfile), Ascii("toolchain")];
    fed := FeedVersions(k.toolchain, fed, done + half);
    Regroup(done, half, VersionSegments(k.toolchain));
    assert half + VersionSegments(k.toolchain) == ToolchainSegments(k);
  }

  method FeedVersions(toolchain: Toolchain, before: Text, ghost done: seq<Text>) returns (fed: Text)
    requires before == Terminated(done)
    ensures fed == Terminated(done + VersionSegments(toolchain))
  {
    fed := FeedText(done, before, toolchain.leanVersion);
    ghost var texts := done + [toolchain.leanVersion];
    fed := FeedText(texts, fed, toolchain.resolvedVersion);
    texts := texts + [toolchain.resolvedVersion];
    fed := FeedText(texts, fed, toolchain.headerSha256);
    texts := texts + [toolchain.headerSha256];
    fed := FeedText(texts, fed, toolchain.fixtureSha256);
    assert texts + [toolchain.fixtureSha256] == done + VersionSegments(toolchain);
  }

  method FeedOptions(k: KeyInputs, before: Text, ghost done: seq<Text>) returns (fed: Text)
    requires before == Terminated(done)
    ensures fed == Terminated(done + OptionSegments(k))
  {
    fed := FeedMarker(done, before, k.toolchain.hostTriple, "options");
    ghost var texts := done + [k.toolchain.hostTriple, Ascii("options")];
    fed := FeedText(texts, fed, k.options.namespaceContext);
    texts := texts + [k.options.namespaceContext];
    fed := FeedText(texts, fed, k.options.fileLabel);
    assert texts + [k.options.fileLabel] == done + OptionSegments(k);
  }

  /** Updates the hasher with a text and a marker. */
  method FeedMarker(ghost done: seq<Text>, before: Text, open: Text, name: string) returns (fed: Text)
    requires before == Terminated(done)
    ensures fed == Terminated(done + [open, Ascii(name)])
  {
    fed := before + open + Marker(name);
    MarkerCloses(done, open, name);
  }

  /** Updates the hasher with a text and a NUL. */
  method FeedText(ghost done: seq<Text>, before: Text, open: Text) returns (fed: Text)
    requires before == Terminated(done)
    ensures fed == Terminated(done + [open])
  {
    fed := before + open + [0];
    TerminatedAppend(done, open);
  }

  lemma Regroup<T>(a: seq<T>, b: seq<T>, c: seq<T>)
    ensures a + b + c == a + (b + c)
  {
  }

  // ----- injectivity -----

  ghost predicate AllNulFree(texts: seq<Text>) {
    forall i :: 0 <= i < |texts| ==> NulFree(texts[i])
  }

  lemma FirstNul(a: Text, x: Text)
    requires NulFree(a)
    ensures (a + [0] + x)[|a|] == 0 && forall i :: 0 <= i < |a| ==> (a + [0] + x)[i] != 0
  {
  }

  lemma FirstNulIsTheSame(a: Text, b: Text, x: Text, y: Text)
    requires NulFree(a) && NulFree(b)
    requires a + [0] + x == b + [0] + y
    ensures a == b && x == y
  {
    var u, v := a + [0] + x, b + [0] + y;
    FirstNul(a, x);
    FirstNul(b, y);
    assert a == u[..|a|] && b == v[..|b|];
    assert x == u[|a| + 1..] && y == v[|b| + 1..];
  }

  /** A list of NUL-free texts can be read back from its NUL-terminated concatenation:
      the number of NULs is the number of texts. */
  lemma {:induction false} TerminatedInjective(a: seq<Text>, b: seq<Text>)
    requires AllNulFree(a) && AllNulFree(b)
    requires Terminated(a) == Terminated(b)
    ensures a == b
  {
    if a != [] && b != [] {
      assert a[0] + [0] + Terminated(a[1..]) == b[0] + [0] + Terminated(b[1..]);
      FirstNulIsTheSame(a[0], b[0], Terminated(a[1..]), Terminated(b[1..]));
      TerminatedInjective(a[1..], b[1..]);
      assert a == [a[0]] + a[1..] && b == [b[0]] + b[1..];
    }
  }

  lemma NulFreeConcat(a: seq<Text>, b: seq<Text>)
    ensures AllNulFree(a + b) <==> AllNulFree(a) && AllNulFree(b)
  {
    if AllNulFree(a + b) {
      assert forall i :: 0 <= i < |a| ==> (a + b)[i] == a[i];
      assert forall i :: 0 <= i < |b| ==> (a + b)[|a| + i] == b[i];
    }
  }

  lemma SourceSegmentsAreNulFree(k: KeyInputs)
    requires k.NulFreeFields()
    ensures AllNulFree(SourceSegments(k))
  {
    EncodeModeIsNulFree(k.mode);
    assert AllNulFree(ProjectSegments(k)) && AllNulFree(FileSegments(k));
    NulFreeConcat(ProjectSegments(k), FileSegments(k));
    NulFreeConcat(ProjectSegments(k) + FileSegments(k), [k.source, IMPORTS_MARKER]);
  }

  lemma SegmentsAreNulFree(k: KeyInputs)
    requires k.NulFreeFields()
    ensures AllNulFree(Segments(k))
  {
    SourceSegmentsAreNulFree(k);
    NulFreeConcat(SourceSegments(k), k.imports);
    NulFreeConcat(SourceSegments(k) + k.imports, ToolchainSegments(k));
    NulFreeConcat(SourceSegments(k) + k.imports + ToolchainSegments(k), OptionSegments(k));
  }

  lemma LabelInjective(p: SessionImportProfile, q: SessionImportProfile)
    requires Label(p) == Label(q)
    ensures p == q
  {
    assert |Label(ExportedPublic)| == 15 && |Label(Server)| == 6 && |Label(Private)| == 7;
  }

  lemma NumericTailInjective(a: ElabOptions, b: ElabOptions)
    requires NumericTail(a) == NumericTail(b)
    ensures a.heartbeatLimit == b.heartbeatLimit && a.diagnosticByteLimit == b.diagnosticByteLimit
  {
    SpanOfWords();
    assert LittleEndian(a.heartbeatLimit, 8) == NumericTail(a)[..8] == LittleEndian(b.heartbeatLimit, 8);
    assert LittleEndian(a.diagnosticByteLimit, 8) == NumericTail(a)[8..] == LittleEndian(b.diagnosticByteLimit, 8);
    LittleEndianInjective(a.heartbeatLimit, b.heartbeatLimit, 8);
    LittleEndianInjective(a.diagnosticByteLimit, b.diagnosticByteLimit, 8);
  }

  /** The first ten and the last twelve segments are fixed in number, so the import list is
      what lies between. */
  lemma SegmentsSplit<T>(a: seq<T>, b: seq<T>, c: seq<T>, d: seq<T>, a': seq<T>, b': seq<T>, c': seq<T>, d': seq<T>)
    requires |a| == |a'| && |c| == |c'| && |d| == |d'|
    requires a + b + c + d == a' + b' + c' + d'
    ensures a == a' && b == b' && c == c' && d == d'
  {
    var s, n := a + b + c + d, |a| + |b|;
    assert |b| == |b'|;
    assert a == s[..|a|] == a' && b == s[|a|..n] == b' && c == s[n..n + |c|] == c' && d == s[n + |c|..] == d';
  }

  lemma SourceSegmentsInjective(a: KeyInputs, b: KeyInputs)
    requires SourceSegments(a) == SourceSegments(b)
    ensures a.projectRoot == b.projectRoot && a.mode == b.mode && a.fileIdentity == b.fileIdentity
    ensures a.source == b.source
  {
    var x, y := [a.source, IMPORTS_MARKER], [b.source, IMPORTS_MARKER];
    assert SourceSegments(a) + [] == SourceSegments(a) && SourceSegments(b) + [] == SourceSegments(b);
    SegmentsSplit(ProjectSegments(a), FileSegments(a), x, [], ProjectSegments(b), FileSegments(b), y, []);
    assert x[0] == y[0];
    assert ProjectSegments(a)[2] == ProjectSegments(b)[2];
    assert FileSegments(a)[0] == FileSegments(b)[0] && FileSegments(a)[2] == FileSegments(b)[2];
    EncodeModeInjective(a.mode, b.mode);
  }

  lemma ToolchainSegmentsInjective(a: KeyInputs, b: KeyInputs)
    requires ToolchainSegments(a) == ToolchainSegments(b) && OptionSegments(a) == OptionSegments(b)
    ensures a.importProfile == b.importProfile && a.toolchain == b.toolchain
    ensures a.options.namespaceContext == b.options.namespaceContext && a.options.fileLabel == b.options.fileLabel
  {
    var s, t := ToolchainSegments(a), ToolchainSegments(b);
    assert s[2] == t[2] && s[4] == t[4] && s[5] == t[5] && s[6] == t[6] && s[7] == t[7];
    var u, v := OptionSegments(a), OptionSegments(b);
    assert u[0] == v[0] && u[2] == v[2] && u[3] == v[3];
    LabelInjective(a.importProfile, b.importProfile);
  }

  lemma SegmentsInjective(a: KeyInputs, b: KeyInputs)
    requires Segments(a) == Segments(b)
    requires NumericTail(a.options) == NumericTail(b.options)
    ensures a == b
  {
    SegmentsSplit(SourceSegments(a), a.imports, ToolchainSegments(a), OptionSegments(a),
                  SourceSegments(b), b.imports, ToolchainSegments(b), OptionSegments(b));
    SourceSegmentsInjective(a, b);
    ToolchainSegmentsInjective(a, b);
    NumericTailInjective(a.options, b.options);
  }

  /** Equal preimages describe one environment, one file, one source and one set of options,
      for any number of imports, the empty name included. */
  lemma PreimageInjective(a: KeyInputs, b: KeyInputs)
    requires a.NulFreeFields() && b.NulFreeFields()
    requires Preimage(a) == Preimage(b)
    ensures a == b
  {
    var u, v := Terminated(Segments(a)), Terminated(Segments(b));
    assert |u| == |v| && u == Preimage(a)[..|u|] && v == Preimage(b)[..|u|];
    assert NumericTail(a.options) == Preimage(a)[|u|..] && NumericTail(b.options) == Preimage(b)[|u|..];
    SegmentsAreNulFree(a);
    SegmentsAreNulFree(b);
    TerminatedInjective(Segments(a), Segments(b));
    SegmentsInjective(a, b);
  }

  lemma {:induction false} TerminatedConcat(a: seq<Text>, b: seq<Text>)
    ensures Terminated(a + b) == Terminated(a) + Terminated(b)
  {
    if a == [] {
      assert a + b == b;
    } else {
      TerminatedConcat(a[1..], b);
      assert (a + b)[1..] == a[1..] + b;
    }
  }

  lemma TerminatedMiddle(head: seq<Text>, t: Text, tail: seq<Text>)
    ensures Terminated(head + [t] + tail) == Terminated(head) + t + [0] + Terminated(tail)
  {
    TerminatedConcat(head + [t], tail);
    TerminatedAppend(head, t);
  }

  lemma NulReadsAsTwoTexts(head: seq<Text>, x: Text, y: Text, tail: seq<Text>)
    ensures Terminated(head + [x + [0] + y] + tail) == Terminated(head + [x, y] + tail)
  {
    TerminatedMiddle(head, x + [0] + y, tail);
    TerminatedMiddle(head + [x], y, tail);
    TerminatedAppend(head, x);
    assert head + [x] + [y] == head + [x, y];
    var h := Terminated(head);
    assert h + (x + [0] + y) == h + x + [0] + y;
  }

  /** Without the NUL-free hypothesis the key is ambiguous: an import name holding a NUL
      reads as two names. */
  lemma NulInAnImportCollides(k: KeyInputs, x: Text, y: Text)
    ensures var a, b := k.(imports := [x + [0] + y]), k.(imports := [x, y]);
            a != b && Preimage(a) == Preimage(b)
  {
    var a, b := k.(imports := [x + [0] + y]), k.(imports := [x, y]);
    assert |a.imports| != |b.imports|;
    var tail := ToolchainSegments(k) + OptionSegments(k);
    assert Segments(a) == SourceSegments(k) + a.imports + tail;
    assert Segments(b) == SourceSegments(k) + b.imports + tail;
    NulReadsAsTwoTexts(SourceSegments(k), x, y, tail);
  }
}
