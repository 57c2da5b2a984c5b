/** Which inputs share a snapshot-cache key when texts may hold NUL bytes
    (crates/lean-rs-worker-child/src/child.rs:2605-2668), exactly. */
module CacheKeyCollisions {
  import opened Prelude
  import opened SnapshotCacheKey

  /** The pieces of a text between its NULs. */
  function SplitAtNul(t: Text): (parts: seq<Text>)
    ensures parts != []
  {
    if t == [] then [[]]
    else
      var rest := SplitAtNul(t[1..]);
      if t[0] == 0 then [[]] + rest else [[t[0]] + rest[0]] + rest[1..]
  }

  function Flatten(texts: seq<Text>): seq<Text> {
    if texts == [] then [] else SplitAtNul(texts[0]) + Flatten(texts[1..])
  }

  lemma {:induction false} SplitIsNulFree(t: Text)
    ensures AllNulFree(SplitAtNul(t))
    ensures NulFree(t) <==> |SplitAtNul(t)| == 1
    ensures NulFree(t) ==> SplitAtNul(t) == [t]
  {
    if t != [] {
      SplitIsNulFree(t[1..]);
      assert t == [t[0]] + t[1..];
      assert NulFree(t) <==> t[0] != 0 && NulFree(t[1..]);
    }
  }

  lemma TerminatedHead(t: Text, rest: seq<Text>)
    ensures Terminated([t] + rest) == t + [0] + Terminated(rest)
  {
    assert ([t] + rest)[1..] == rest;
  }

  lemma {:induction false} SplitReadsTheSame(t: Text)
    ensures Terminated(SplitAtNul(t)) == t + [0]
  {
    if t == [] {
      assert Terminated([[]]) == [0] + Terminated([]);
    } else {
      var rest := SplitAtNul(t[1..]);
      SplitReadsTheSame(t[1..]);
      assert rest == [rest[0]] + rest[1..];
      TerminatedHead(rest[0], rest[1..]);
      OneMoreByte(t[0], t[1..], rest[0], rest[1..]);
      assert t == [t[0]] + t[1..];
    }
  }

  lemma OneMoreByte(b: byte, t: Text, part: Text, rest: seq<Text>)
    requires part + [0] + Terminated(rest) == t + [0]
    ensures Terminated([[]] + ([part] + rest)) == [0] + t + [0]
    ensures Terminated([[b] + part] + rest) == [b] + t + [0]
  {
    TerminatedHead([], [part] + rest);
    TerminatedHead(part, rest);
    TerminatedHead([b] + part, rest);
    assert [b] + (t + [0]) == [b] + part + [0] + Terminated(rest);
  }

  /** A list reads the same as the list of its NUL-free pieces. */
  lemma {:induction false} FlattenReadsTheSame(texts: seq<Text>)
    ensures Terminated(Flatten(texts)) == Terminated(texts)
    ensures AllNulFree(Flatten(texts))
    ensures AllNulFree(texts) ==> Flatten(texts) == texts
  {
    if texts != [] {
      var t := texts[0];
      SplitReadsTheSame(t);
      SplitIsNulFree(t);
      FlattenReadsTheSame(texts[1..]);
      TerminatedConcat(SplitAtNul(t), Flatten(texts[1..]));
      assert AllNulFree(texts) ==> AllNulFree(texts[1..]) && texts == [t] + texts[1..];
    }
  }

  lemma {:induction false} FlattenConcat(a: seq<Text>, b: seq<Text>)
    ensures Flatten(a + b) == Flatten(a) + Flatten(b)
  {
    var all := a + b;
    if a == [] {
      assert all == b;
    } else {
      assert all[0] == a[0] && all[1..] == a[1..] + b;
      FlattenConcat(a[1..], b);
    }
  }

  /** Which inputs share a key, for all inputs: exactly those whose segments, cut at every NUL,
      are the same, and whose numeric options are. */
  lemma PreimagesCollideExactly(a: KeyInputs, b: KeyInputs)
    ensures Preimage(a) == Preimage(b) <==>
      Flatten(Segments(a)) == Flatten(Segments(b)) && NumericTail(a.options) == NumericTail(b.options)
  {
    var u, v := Terminated(Segments(a)), Terminated(Segments(b));
    FlattenReadsTheSame(Segments(a));
    FlattenReadsTheSame(Segments(b));
    if Preimage(a) == Preimage(b) {
      assert |u| == |v| && u == Preimage(a)[..|u|] && v == Preimage(b)[..|u|];
      assert NumericTail(a.options) == Preimage(a)[|u|..] && NumericTail(b.options) == Preimage(b)[|u|..];
      TerminatedInjective(Flatten(Segments(a)), Flatten(Segments(b)));
    }
  }

  /** No NUL-free inputs other than `k` itself have the key of `k`. */
  ghost predicate KeyIsItsOwn(k: KeyInputs) {
    forall b: KeyInputs :: b.NulFreeFields() && Preimage(b) == Preimage(k) ==> b == k
  }

  lemma NulFreeKeyIsItsOwn(k: KeyInputs)
    requires k.NulFreeFields()
    ensures KeyIsItsOwn(k)
  {
    forall b: KeyInputs | b.NulFreeFields() && Preimage(b) == Preimage(k) ensures b == k {
      PreimageInjective(b, k);
    }
  }

  lemma FlattenOfSegments(k: KeyInputs)
    ensures Flatten(Segments(k)) == Flatten(SourceSegments(k)) + Flatten(k.imports)
                                    + Flatten(ToolchainSegments(k)) + Flatten(OptionSegments(k))
  {
    FlattenConcat(SourceSegments(k), k.imports);
    FlattenConcat(SourceSegments(k) + k.imports, ToolchainSegments(k));
    FlattenConcat(SourceSegments(k) + k.imports + ToolchainSegments(k), OptionSegments(k));
  }

  lemma FlattenTwice(texts: seq<Text>)
    ensures Flatten(Flatten(texts)) == Flatten(texts)
  {
    FlattenReadsTheSame(texts);
    FlattenReadsTheSame(Flatten(texts));
  }

  /** When every other field is NUL-free, the key belongs to the inputs alone exactly when no
      import name holds a NUL. */
  lemma ImportsExactly(k: KeyInputs)
    requires k.(imports := []).NulFreeFields()
    ensures KeyIsItsOwn(k) <==> AllNulFree(k.imports)
  {
    if AllNulFree(k.imports) {
      NulFreeKeyIsItsOwn(k);
    } else {
      var b := k.(imports := Flatten(k.imports));
      FlattenReadsTheSame(k.imports);
      FlattenTwice(k.imports);
      FlattenOfSegments(k);
      FlattenOfSegments(b);
      PreimagesCollideExactly(b, k);
      assert b != k;
    }
  }

  /** Behind its first NUL the source goes on with the marker that ends a source. */
  predicate EndsLikeASource(source: Text) {
    var parts := SplitAtNul(source);
    |parts| >= 2 && parts[1] == IMPORTS_MARKER
  }

  /** The inputs such a source is mistaken for: the rest of it reads as import names. */
  function Misread(k: KeyInputs): KeyInputs
    requires EndsLikeASource(k.source)
  {
    var parts := SplitAtNul(k.source);
    k.(source := parts[0], imports := parts[2..] + [IMPORTS_MARKER] + k.imports)
  }

  /** The segments before the source. */
  function LeadingSegments(k: KeyInputs): seq<Text> {
    ProjectSegments(k) + FileSegments(k)
  }

  lemma FlattenOne(t: Text)
    ensures Flatten([t]) == SplitAtNul(t)
  {
    assert [t][1..] == [];
    assert SplitAtNul(t) + [] == SplitAtNul(t);
  }

  lemma FlattenAround(lead: seq<Text>, t: Text, marker: Text)
    requires AllNulFree(lead) && NulFree(marker)
    ensures Flatten(lead + [t, marker]) == lead + SplitAtNul(t) + [marker]
  {
    FlattenConcat(lead + [t], [marker]);
    FlattenConcat(lead, [t]);
    FlattenOne(t);
    FlattenReadsTheSame(lead);
    FlattenReadsTheSame([marker]);
    assert lead + [t, marker] == lead + [t] + [marker];
  }

  lemma LeadIsNulFree(k: KeyInputs)
    requires k.(source := []).NulFreeFields()
    ensures AllNulFree(LeadingSegments(k))
  {
    SourceSegmentsAreNulFree(k.(source := []));
    NulFreeConcat(LeadingSegments(k), [[], IMPORTS_MARKER]);
  }

  /** The profile, the toolchain and the options. */
  function ClosingSegments(k: KeyInputs): seq<Text> {
    ToolchainSegments(k) + OptionSegments(k)
  }

  lemma ClosingIsNulFree(k: KeyInputs)
    requires k.(source := []).NulFreeFields()
    ensures AllNulFree(ClosingSegments(k))
  {
    assert AllNulFree(ToolchainSegments(k)) && AllNulFree(OptionSegments(k));
    NulFreeConcat(ToolchainSegments(k), OptionSegments(k));
  }

  lemma FlattenAroundSource(k: KeyInputs)
    requires k.(source := []).NulFreeFields()
    ensures Flatten(Segments(k))
         == LeadingSegments(k) + SplitAtNul(k.source) + [IMPORTS_MARKER] + k.imports + ClosingSegments(k)
  {
    LeadIsNulFree(k);
    ClosingIsNulFree(k);
    FlattenAround(LeadingSegments(k), k.source, IMPORTS_MARKER);
    assert Segments(k) == SourceSegments(k) + k.imports + ClosingSegments(k);
    FlattenConcat(SourceSegments(k) + k.imports, ClosingSegments(k));
    FlattenConcat(SourceSegments(k), k.imports);
    FlattenReadsTheSame(k.imports);
    FlattenReadsTheSame(ClosingSegments(k));
  }

  lemma Regroup<T>(lead: seq<T>, first: T, marker: T, rest: seq<T>, imports: seq<T>, close: seq<T>)
    ensures lead + [first] + [marker] + (rest + [marker] + imports) + close
         == lead + ([first, marker] + rest) + [marker] + imports + close
  {
  }

  /** A source that goes on with the imports marker collides with the inputs it is mistaken
      for, which are NUL-free when everything else is. */
  lemma MisreadCollides(k: KeyInputs)
    requires k.(source := []).NulFreeFields() && EndsLikeASource(k.source)
    ensures var b := Misread(k);
            b.NulFreeFields() && b != k && Preimage(b) == Preimage(k)
  {
    var b, parts := Misread(k), SplitAtNul(k.source);
    SplitIsNulFree(k.source);
    SplitIsNulFree(parts[0]);
    assert b.NulFreeFields();
    FlattenAroundSource(k);
    FlattenAroundSource(b);
    assert parts == [parts[0], IMPORTS_MARKER] + parts[2..];
    Regroup(LeadingSegments(k), parts[0], IMPORTS_MARKER, parts[2..], k.imports, ClosingSegments(k));
    PreimagesCollideExactly(b, k);
  }

  lemma NulFreeSplit(x: Text, rest: Text)
    requires NulFree(x)
    ensures SplitAtNul(x + [0] + rest) == [x] + SplitAtNul(rest)
  {
    var t := x + [0] + rest;
    if x == [] {
      assert t == [0] + rest && t[1..] == rest;
    } else {
      assert t[0] == x[0] && t[1..] == x[1..] + [0] + rest;
      NulFreeSplit(x[1..], rest);
      assert x == [x[0]] + x[1..];
    }
  }

  /** A source that can be sent: text, a NUL, the marker, a NUL, a name. With the imports `b`
      it has the key of the text alone with the imports name, `imports`, `b`. */
  lemma NulInASourceCollides(k: KeyInputs, x: Text, y: Text)
    requires k.NulFreeFields() && NulFree(x) && NulFree(y)
    ensures var a := k.(source := x + [0] + IMPORTS_MARKER + [0] + y);
            var b := k.(source := x, imports := [y, IMPORTS_MARKER] + k.imports);
            a != b && Preimage(a) == Preimage(b)
  {
    var a := k.(source := x + [0] + IMPORTS_MARKER + [0] + y);
    var rest := IMPORTS_MARKER + [0] + y;
    assert a.source == x + [0] + rest;
    NulFreeSplit(x, rest);
    NulFreeSplit(IMPORTS_MARKER, y);
    SplitIsNulFree(y);
    assert SplitAtNul(a.source) == [x, IMPORTS_MARKER, y];
    MisreadCollides(a);
    assert [y] + [IMPORTS_MARKER] + k.imports == [y, IMPORTS_MARKER] + k.imports;
  }

  /** When every other field is NUL-free, the key belongs to the inputs alone exactly when the
      source does not go on, behind its first NUL, with the imports marker. */
  lemma SourceExactly(k: KeyInputs)
    requires k.(source := []).NulFreeFields()
    ensures KeyIsItsOwn(k) <==> !EndsLikeASource(k.source)
  {
    SplitIsNulFree(k.source);
    if NulFree(k.source) {
      NulFreeKeyIsItsOwn(k);
    } else if EndsLikeASource(k.source) {
      MisreadCollides(k);
    } else {
      NinthSegment(k);
      forall b: KeyInputs ensures !(b.NulFreeFields() && Preimage(b) == Preimage(k)) {
        if b.NulFreeFields() {
          PreimagesCollideExactly(b, k);
          SplitIsNulFree(b.source);
          NinthSegment(b);
        }
      }
    }
  }

  /** What follows the source's first piece. */
  lemma NinthSegment(k: KeyInputs)
    requires k.(source := []).NulFreeFields()
    ensures |Flatten(Segments(k))| > 9
    ensures Flatten(Segments(k))[9] == if |SplitAtNul(k.source)| >= 2 then SplitAtNul(k.source)[1] else IMPORTS_MARKER
  {
    FlattenAroundSource(k);
    assert |LeadingSegments(k)| == 8;
    var lead, parts := LeadingSegments(k), SplitAtNul(k.source);
    assert (lead + parts + [IMPORTS_MARKER])[9] == (parts + [IMPORTS_MARKER])[1];
  }

  // ----- pairs of inputs -----

  lemma OuterSegmentsInjective(a: KeyInputs, b: KeyInputs)
    requires LeadingSegments(a) == LeadingSegments(b) && ClosingSegments(a) == ClosingSegments(b)
    requires NumericTail(a.options) == NumericTail(b.options)
    ensures b == a.(source := b.source, imports := b.imports)
  {
    SourceSegmentsInjective(a.(source := []), b.(source := []));
    var t, u := ToolchainSegments(a), ToolchainSegments(b);
    assert ClosingSegments(a)[..|t|] == t && ClosingSegments(b)[..|u|] == u;
    assert ClosingSegments(a)[|t|..] == OptionSegments(a) && ClosingSegments(b)[|u|..] == OptionSegments(b);
    ToolchainSegmentsInjective(a, b);
    NumericTailInjective(a.options, b.options);
  }

  lemma MiddleCancels<T>(lead: seq<T>, x: seq<T>, close: seq<T>, lead': seq<T>, y: seq<T>, close': seq<T>)
    requires |lead| == |lead'| && |close| == |close'|
    ensures lead + x + close == lead' + y + close' <==> lead == lead' && x == y && close == close'
  {
    if lead + x + close == lead' + y + close' {
      SegmentsSplit(lead, x, close, [], lead', y, close', []);
    }
  }

  /** What lies between the fixed segments: the pieces of the source, the marker, the imports. */
  function Middle(k: KeyInputs): seq<Text> {
    SplitAtNul(k.source) + [IMPORTS_MARKER] + k.imports
  }

  lemma FlattenIsMiddle(k: KeyInputs)
    requires k.(source := []).NulFreeFields()
    ensures Flatten(Segments(k)) == LeadingSegments(k) + Middle(k) + ClosingSegments(k)
  {
    FlattenAroundSource(k);
    Regroup3(LeadingSegments(k), SplitAtNul(k.source), [IMPORTS_MARKER], k.imports, ClosingSegments(k));
  }

  lemma Regroup3<T>(a: seq<T>, b: seq<T>, c: seq<T>, d: seq<T>, e: seq<T>)
    ensures a + b + c + d + e == a + (b + c + d) + e
  {
  }

  lemma SameFrame(a: KeyInputs, b: KeyInputs)
    requires b == a.(source := b.source, imports := b.imports)
    ensures LeadingSegments(a) == LeadingSegments(b) && ClosingSegments(a) == ClosingSegments(b)
    ensures NumericTail(a.options) == NumericTail(b.options)
  {
  }

  lemma FrameLengths(a: KeyInputs, b: KeyInputs)
    ensures |LeadingSegments(a)| == |LeadingSegments(b)| && |ClosingSegments(a)| == |ClosingSegments(b)|
  {
  }

  /** Any two inputs whose other fields are NUL-free, whatever their sources hold: they share a
      key exactly when the rest agrees and the pieces of source, marker and imports run on alike. */
  lemma SourcesCollideExactly(a: KeyInputs, b: KeyInputs)
    requires a.(source := []).NulFreeFields() && b.(source := []).NulFreeFields()
    ensures Preimage(a) == Preimage(b) <==> b == a.(source := b.source, imports := b.imports) && Middle(a) == Middle(b)
  {
    PreimagesCollideExactly(a, b);
    FlattenIsMiddle(a);
    FlattenIsMiddle(b);
    FrameLengths(a, b);
    MiddleCancels(LeadingSegments(a), Middle(a), ClosingSegments(a), LeadingSegments(b), Middle(b), ClosingSegments(b));
    if Preimage(a) == Preimage(b) {
      OuterSegmentsInjective(a, b);
    } else if b == a.(source := b.source, imports := b.imports) {
      SameFrame(a, b);
    }
  }

  lemma FlattenAroundImports(k: KeyInputs)
    requires k.(imports := []).NulFreeFields()
    ensures Flatten(Segments(k)) == SourceSegments(k) + Flatten(k.imports) + ClosingSegments(k)
  {
    SourceSegmentsAreNulFree(k.(imports := []));
    ClosingIsNulFree(k.(imports := []));
    FlattenReadsTheSame(SourceSegments(k));
    FlattenReadsTheSame(ClosingSegments(k));
    assert Segments(k) == SourceSegments(k) + k.imports + ClosingSegments(k);
    FlattenConcat(SourceSegments(k) + k.imports, ClosingSegments(k));
    FlattenConcat(SourceSegments(k), k.imports);
  }

  /** Any two inputs whose other fields are NUL-free, whatever their import names hold: they
      share a key exactly when the rest agrees and the names, cut at every NUL, are the same. */
  lemma ImportsCollideExactly(a: KeyInputs, b: KeyInputs)
    requires a.(imports := []).NulFreeFields() && b.(imports := []).NulFreeFields()
    ensures Preimage(a) == Preimage(b) <==> b == a.(imports := b.imports) && Flatten(a.imports) == Flatten(b.imports)
  {
    PreimagesCollideExactly(a, b);
    FlattenAroundImports(a);
    FlattenAroundImports(b);
    MiddleCancels(SourceSegments(a), Flatten(a.imports), ClosingSegments(a),
                  SourceSegments(b), Flatten(b.imports), ClosingSegments(b));
    if Preimage(a) == Preimage(b) {
      SourceSegmentsInjective(a, b);
      assert LeadingSegments(a) == LeadingSegments(b) by {
        assert LeadingSegments(a) == SourceSegments(a)[..8] && LeadingSegments(b) == SourceSegments(b)[..8];
      }
      OuterSegmentsInjective(a, b);
    }
  }
}
