/** The bytes of Lean heap objects as Rust lays them out: header, constructor fields, scalar
    payloads, object arrays and scalar arrays (crates/lean-rs-sys/src/repr.rs:32-72,
    crates/lean-rs-sys/src/ctor.rs:45-465, crates/lean-rs-sys/src/array.rs:44-216). `word` is
    the size of a pointer in bytes, 4 or 8; integers are little-endian. */
module ObjectLayout {
  import opened Prelude
  import opened ByteOrder
  import opened BitMasks

  const HEADER_SIZE: nat := 8
  const OBJECT_SIZE_DELTA: nat := 8
  const MAX_SMALL_OBJECT_SIZE: nat := 4096
  const LEAN_ARRAY: byte := 246
  const LEAN_SCALAR_ARRAY: byte := 248
  const LINEAR_MARK_MASK: byte := 0x80

  predicate IsWord(word: nat) {
    word == 4 || word == 8
  }

  // ----- sizes -----

  /** `align_small_object_size`, after its checked addition. */
  function AlignSmallObjectSize(sz: nat, word: nat): nat
    requires IsWord(word)
  {
    PowersOfWords();
    BitAnd(sz + (OBJECT_SIZE_DELTA - 1), Complement(OBJECT_SIZE_DELTA - 1, 8 * word))
  }

  /** The size and the aligned size `lean_alloc_ctor` computes; `None` is one of its panics:
      an overflow, or the assertion on the small-object limit. */
  function CtorSizes(word: nat, numObjs: byte, scalarSz: nat): Option<(nat, nat)>
    requires IsWord(word)
  {
    var sz := HEADER_SIZE + word * numObjs + scalarSz;
    if sz + (OBJECT_SIZE_DELTA - 1) >= Pow2(8 * word) then None
    else
      var aligned := AlignSmallObjectSize(sz, word);
      if aligned > MAX_SMALL_OBJECT_SIZE then None else Some((sz, aligned))
  }

  lemma AlignRoundsUp(sz: nat, word: nat)
    requires IsWord(word) && sz + 7 < Pow2(8 * word)
    ensures AlignSmallObjectSize(sz, word) == (sz + 7) - (sz + 7) % 8
  {
    PowersOfWords();
    AndClearsLowBits(sz + 7, 3, 8 * word);
    LowBitsAreRemainder(sz + 7, 3);
    assert Complement(7, 8 * word) == Pow2(8 * word) - Pow2(3);
  }

  lemma AlignedCovers(sz: nat, word: nat)
    requires IsWord(word) && sz + 7 < Pow2(8 * word)
    ensures var aligned := AlignSmallObjectSize(sz, word);
            sz <= aligned < sz + 8 && aligned % 8 == 0 && (aligned <= MAX_SMALL_OBJECT_SIZE <==> sz <= MAX_SMALL_OBJECT_SIZE)
  {
    AlignRoundsUp(sz, word);
    var r := (sz + 7) % 8;
    assert (sz + 7 - r) % 8 == 0;
  }

  lemma WordsHoldSmallSizes(word: nat)
    requires IsWord(word)
    ensures Pow2(8 * word) > 2 * MAX_SMALL_OBJECT_SIZE
  {
    PowersOfWords();
  }

  /** For every shape: allocation succeeds exactly when the object fits the small-object
      limit, and the aligned size is then the least multiple of 8 that covers it and fits
      the 16-bit size field. */
  lemma CtorSizesExactly(word: nat, numObjs: byte, scalarSz: nat)
    requires IsWord(word)
    ensures var need := 8 + word * numObjs + scalarSz;
            var sizes := CtorSizes(word, numObjs, scalarSz);
            && (sizes.Some? <==> need <= 4096)
            && (sizes.Some? ==>
                  && sizes.value.0 == need
                  && need <= sizes.value.1 < need + 8 && sizes.value.1 % 8 == 0
                  && sizes.value.1 < 0x1_0000)
  {
    WordsHoldSmallSizes(word);
    var need := HEADER_SIZE + word * numObjs + scalarSz;
    if need + 7 < Pow2(8 * word) { AlignedCovers(need, word); }
  }

  /** Within the documented ceilings of 255 object fields and 1024 scalar bytes the
      assertion never fires. */
  lemma DocumentedShapesAllocate(word: nat, numObjs: byte, scalarSz: nat)
    requires IsWord(word) && scalarSz <= 1024
    ensures CtorSizes(word, numObjs, scalarSz).Some?
  {
    CtorSizesExactly(word, numObjs, scalarSz);
    assert word * numObjs <= 8 * 255 by {
      if word == 4 { assert word * numObjs == 4 * numObjs; } else { assert word * numObjs == 8 * numObjs; }
    }
  }

  // ----- reads and writes -----

  function Splice(mem: Text, at: nat, bytes: Text): (r: Text)
    requires at + |bytes| <= |mem|
    ensures |r| == |mem|
    ensures forall i :: 0 <= i < |mem| ==> r[i] == if at <= i < at + |bytes| then bytes[i - at] else mem[i]
  {
    mem[..at] + bytes + mem[at + |bytes|..]
  }

  /** An unaligned little-endian read of `width` bytes. */
  function Load(mem: Text, at: nat, width: nat): nat
    requires at + width <= |mem|
  {
    FromLittleEndian(mem[at..at + width])
  }

  /** An unaligned little-endian write of `width` bytes. */
  function Store(mem: Text, at: nat, width: nat, v: nat): (r: Text)
    requires at + width <= |mem|
    ensures |r| == |mem|
  {
    Splice(mem, at, LittleEndian(v, width))
  }

  predicate Disjoint(at: nat, width: nat, at': nat, width': nat) {
    at + width <= at' || at' + width' <= at
  }

  /** Read over write: the written word reads back, every disjoint one is unchanged. */
  lemma LoadAfterStore(mem: Text, at: nat, width: nat, v: nat)
    requires at + width <= |mem| && v < Span(width)
    ensures Load(Store(mem, at, width, v), at, width) == v
  {
    assert Store(mem, at, width, v)[at..at + width] == LittleEndian(v, width);
    LittleEndianRoundTrip(v, width);
  }

  lemma LoadFrame(mem: Text, at: nat, width: nat, v: nat, at': nat, width': nat)
    requires at + width <= |mem| && at' + width' <= |mem| && Disjoint(at, width, at', width')
    ensures Load(Store(mem, at, width, v), at', width') == Load(mem, at', width')
  {
    assert Store(mem, at, width, v)[at'..at' + width'] == mem[at'..at' + width'];
  }

  // ----- header fields -----

  function Rc(mem: Text): nat requires |mem| >= HEADER_SIZE { Load(mem, 0, 4) }
  function CsSize(mem: Text): nat requires |mem| >= HEADER_SIZE { Load(mem, 4, 2) }
  function Other(mem: Text): byte requires |mem| >= HEADER_SIZE { mem[6] }
  function Tag(mem: Text): byte requires |mem| >= HEADER_SIZE { mem[7] }

  /** The header as it lies in memory: a 32-bit reference count of 1, 16 bits of size, `m_other`
      and the tag. */
  ghost predicate HasHeader(mem: Text, tag: byte, other: byte) {
    && |mem| >= 8 && mem[0] == 1 && mem[1] == 0 && mem[2] == 0 && mem[3] == 0
    && mem[6] == other && mem[7] == tag
    && Rc(mem) == 1 && Other(mem) == other && Tag(mem) == tag
  }

  /** `bytes` were written at `at` and nothing else. */
  ghost predicate Overwritten(mem: Text, mem': Text, at: nat, bytes: Text) {
    at + |bytes| <= |mem| && mem' == mem[..at] + bytes + mem[at + |bytes|..]
  }

  lemma TailOverwritten(mem: Text, mem': Text, at: nat, bytes: Text)
    requires Overwritten(mem, mem', at, bytes) && |mem| == at + |bytes|
    ensures mem'[at..] == bytes
  {
  }

  lemma BytesOfOne()
    ensures var bs := LittleEndian(1, 4); bs[0] == 1 && bs[1] == 0 && bs[2] == 0 && bs[3] == 0
  {
    assert LittleEndian(0, 3) == [0] + LittleEndian(0, 2);
    assert LittleEndian(0, 2) == [0] + LittleEndian(0, 1);
  }

  lemma BytesOfHalfWord(v: nat)
    requires v < 0x1_0000
    ensures LittleEndian(v, 2)[0] == v % 256 && LittleEndian(v, 2)[1] == v / 256
    ensures v == v % 256 + 256 * (v / 256)
  {
  }

  method StoreAt(o: array<byte>, at: nat, width: nat, v: nat)
    requires at + width <= o.Length
    modifies o
    ensures o[..] == Store(old(o[..]), at, width, v)
  {
    var bytes := LittleEndian(v, width);
    forall i | 0 <= i < width { o[at + i] := bytes[i]; }
  }

  /** `set_st_header`. */
  method SetStHeader(o: array<byte>, tag: byte, other: byte, alignedSize: nat)
    requires o.Length >= HEADER_SIZE && alignedSize < 0x1_0000
    modifies o
    ensures HasHeader(o[..], tag, other)
    ensures CsSize(o[..]) == alignedSize == o[4] as nat + 256 * o[5] as nat
    ensures o[8..] == old(o[8..])
  {
    SpanOfWords();
    BytesOfOne();
    BytesOfHalfWord(alignedSize);
    StoreAt(o, 0, 4, 1);
    LoadAfterStore(old(o[..]), 0, 4, 1);
    ghost var m1 := o[..];
    StoreAt(o, 4, 2, alignedSize);
    LoadAfterStore(m1, 4, 2, alignedSize);
    LoadFrame(m1, 4, 2, alignedSize, 0, 4);
    ghost var m2 := o[..];
    o[7] := tag;
    o[6] := other;
    assert o[..][0..4] == m2[0..4] && o[..][4..6] == m2[4..6];
  }

  // ----- constructors -----

  function ObjSlot(word: nat, i: nat): nat {
    HEADER_SIZE + word * i
  }

  /** `lean_ctor_scalar_cptr`: past the object fields, whose number the header holds. */
  function ScalarBase(mem: Text, word: nat): nat
    requires |mem| >= HEADER_SIZE
  {
    ObjSlot(word, Other(mem))
  }

  /** A constructor's object fields lie inside its memory. */
  predicate IsCtor(mem: Text, word: nat) {
    IsWord(word) && |mem| >= HEADER_SIZE && ScalarBase(mem, word) <= |mem|
  }

  predicate ScalarInRange(mem: Text, word: nat, offset: nat, width: nat) {
    IsCtor(mem, word) && ScalarBase(mem, word) + offset + width <= |mem|
  }

  function ObjField(mem: Text, word: nat, i: nat): nat
    requires IsCtor(mem, word) && i < Other(mem) as nat
  {
    SlotsFit(word, i, Other(mem));
    Load(mem, ObjSlot(word, i), word)
  }

  lemma SlotsFit(word: nat, i: nat, n: nat)
    requires i < n
    ensures ObjSlot(word, i) + word <= ObjSlot(word, n)
  {
    MulAdds(word, i, 1);
    MulAdds(word, i + 1, n - (i + 1));
  }

  /** `lean_ctor_get_uint8` .. `lean_ctor_get_float`, by width. */
  function CtorGetScalar(mem: Text, word: nat, offset: nat, width: nat): nat
    requires ScalarInRange(mem, word, offset, width)
  {
    Load(mem, ScalarBase(mem, word) + offset, width)
  }

  function CtorSetScalar(mem: Text, word: nat, offset: nat, width: nat, v: nat): Text
    requires ScalarInRange(mem, word, offset, width)
  {
    Store(mem, ScalarBase(mem, word) + offset, width, v)
  }

  ghost predicate SameHeader(a: Text, b: Text)
    requires |a| == |b| >= HEADER_SIZE
  {
    a[..HEADER_SIZE] == b[..HEADER_SIZE]
  }

  ghost predicate SameObjFields(a: Text, b: Text, word: nat)
    requires IsCtor(a, word) && IsCtor(b, word) && Other(a) == Other(b)
  {
    forall i :: 0 <= i < Other(a) as nat ==> ObjField(a, word, i) == ObjField(b, word, i)
  }

  /** `lean_ctor_set_uint8` .. `lean_ctor_set_float`. */
  method LeanCtorSetScalar(o: array<byte>, word: nat, offset: nat, width: nat, v: nat)
    requires ScalarInRange(o[..], word, offset, width)
    modifies o
    ensures o[..] == CtorSetScalar(old(o[..]), word, offset, width, v)
    ensures Overwritten(old(o[..]), o[..], 8 + word * old(o[6]) + offset, LittleEndian(v, width))
  {
    StoreAt(o, HEADER_SIZE + word * o[6] + offset, width, v);
  }

  /** `lean_ctor_set_usize`: the slot counts from the first object field. */
  method LeanCtorSetUsize(o: array<byte>, word: nat, i: nat, v: nat)
    requires IsCtor(o[..], word) && ObjSlot(word, i) + word <= o.Length
    modifies o
    ensures o[..] == Store(old(o[..]), ObjSlot(word, i), word, v)
    ensures Overwritten(old(o[..]), o[..], 8 + word * i, LittleEndian(v, word))
  {
    StoreAt(o, ObjSlot(word, i), word, v);
  }

  lemma StorePastHeader(mem: Text, at: nat, width: nat, v: nat)
    requires HEADER_SIZE <= at && at + width <= |mem|
    ensures SameHeader(Store(mem, at, width, v), mem)
    ensures Other(Store(mem, at, width, v)) == Other(mem) && Tag(Store(mem, at, width, v)) == Tag(mem)
  {
  }

  lemma ScalarWriteSparesFields(mem: Text, word: nat, offset: nat, width: nat, v: nat)
    requires ScalarInRange(mem, word, offset, width)
    ensures var mem' := CtorSetScalar(mem, word, offset, width, v);
            IsCtor(mem', word) && SameHeader(mem', mem) && Other(mem') == Other(mem) && SameObjFields(mem', mem, word)
  {
    var at := ScalarBase(mem, word) + offset;
    var mem' := CtorSetScalar(mem, word, offset, width, v);
    StorePastHeader(mem, at, width, v);
    forall i | 0 <= i < Other(mem) as nat ensures ObjField(mem', word, i) == ObjField(mem, word, i) {
      SlotsFit(word, i, Other(mem));
      LoadFrame(mem, at, width, v, ObjSlot(word, i), word);
    }
  }

  /** A typed scalar write reads back exactly and leaves the header, every object field and
      every disjoint scalar as they were. */
  lemma ScalarWrites(mem: Text, word: nat, offset: nat, width: nat, v: nat)
    requires ScalarInRange(mem, word, offset, width) && v < Span(width)
    ensures var mem' := CtorSetScalar(mem, word, offset, width, v);
            && ScalarInRange(mem', word, offset, width) && CtorGetScalar(mem', word, offset, width) == v
            && SameHeader(mem', mem) && SameObjFields(mem', mem, word)
            && (forall offset', width' ::
                  ScalarInRange(mem, word, offset', width') && Disjoint(offset, width, offset', width') ==>
                  CtorGetScalar(mem', word, offset', width') == CtorGetScalar(mem, word, offset', width'))
  {
    var base := ScalarBase(mem, word);
    ScalarWriteSparesFields(mem, word, offset, width, v);
    LoadAfterStore(mem, base + offset, width, v);
    forall offset', width' | ScalarInRange(mem, word, offset', width') && Disjoint(offset, width, offset', width')
      ensures CtorGetScalar(CtorSetScalar(mem, word, offset, width, v), word, offset', width')
           == CtorGetScalar(mem, word, offset', width')
    {
      LoadFrame(mem, base + offset, width, v, base + offset', width');
    }
  }

  ghost predicate SameObjFieldsBut(a: Text, b: Text, word: nat, i: nat)
    requires IsCtor(a, word) && IsCtor(b, word) && Other(a) == Other(b)
  {
    forall j :: 0 <= j < Other(a) as nat && j != i ==> ObjField(a, word, j) == ObjField(b, word, j)
  }

  lemma ObjFieldFrame(mem: Text, mem': Text, word: nat, i: nat, v: nat, j: nat)
    requires IsCtor(mem, word) && i < Other(mem) as nat && j < Other(mem) as nat && j != i
    requires ObjSlot(word, i) + word <= |mem| && mem' == Store(mem, ObjSlot(word, i), word, v)
    requires IsCtor(mem', word) && Other(mem') == Other(mem)
    ensures ObjField(mem', word, j) == ObjField(mem, word, j)
  {
    SlotsFit(word, j, Other(mem));
    if j < i { SlotsFit(word, j, i); } else { SlotsFit(word, i, j); }
    LoadFrame(mem, ObjSlot(word, i), word, v, ObjSlot(word, j), word);
  }

  lemma StoreBeforeScalars(mem: Text, at: nat, width: nat, v: nat, base: nat)
    requires at + width <= base <= |mem|
    ensures Store(mem, at, width, v)[base..] == mem[base..]
  {
  }

  /** Writing object field `i` replaces exactly its word. */
  lemma ObjFieldBytes(mem: Text, word: nat, i: nat, v: nat)
    requires ObjSlot(word, i) + word <= |mem|
    ensures Overwritten(mem, Store(mem, ObjSlot(word, i), word, v), 8 + word * i, LittleEndian(v, word))
  {
  }

  /** Writing object field `i` leaves the header, the other fields and all scalars alone. */
  lemma ObjFieldWrites(mem: Text, word: nat, i: nat, v: nat)
    requires IsCtor(mem, word) && i < Other(mem) as nat && v < Span(word)
    requires ObjSlot(word, i) + word <= |mem|
    ensures var mem' := Store(mem, ObjSlot(word, i), word, v);
            && SameHeader(mem', mem) && IsCtor(mem', word) && Other(mem') == Other(mem)
            && ObjField(mem', word, i) == v
            && SameObjFieldsBut(mem', mem, word, i)
            && mem'[ScalarBase(mem, word)..] == mem[ScalarBase(mem, word)..]
  {
    var mem' := Store(mem, ObjSlot(word, i), word, v);
    StorePastHeader(mem, ObjSlot(word, i), word, v);
    LoadAfterStore(mem, ObjSlot(word, i), word, v);
    SlotsFit(word, i, Other(mem));
    StoreBeforeScalars(mem, ObjSlot(word, i), word, v, ScalarBase(mem, word));
    forall j | 0 <= j < Other(mem) as nat && j != i ensures ObjField(mem', word, j) == ObjField(mem, word, j) {
      ObjFieldFrame(mem, mem', word, i, v, j);
    }
  }

  /** `lean_ctor_set_usize` is documented to count past the object fields, but counts from
      the first one: it spares the object fields, whatever it writes, exactly when the slot
      index is at least their number. */
  lemma UsizeSlotsSpareFieldsExactly(mem: Text, word: nat, i: nat)
    requires IsCtor(mem, word) && ObjSlot(word, i) + word <= |mem|
    ensures (forall v: nat :: v < Span(word) ==> UsizeWriteSparesFields(mem, word, i, v)) <==> i >= Other(mem) as nat
  {
    if i >= Other(mem) as nat {
      forall v: nat | v < Span(word) ensures UsizeWriteSparesFields(mem, word, i, v) {
        StorePastHeader(mem, ObjSlot(word, i), word, v);
        forall j | 0 <= j < Other(mem) as nat
          ensures ObjField(Store(mem, ObjSlot(word, i), word, v), word, j) == ObjField(mem, word, j)
        {
          SlotsFit(word, j, i);
          SlotsFit(word, j, Other(mem));
          LoadFrame(mem, ObjSlot(word, i), word, v, ObjSlot(word, j), word);
        }
      }
    } else {
      var v := if ObjField(mem, word, i) == 0 then 1 else 0;
      assert Span(word) > 1 by { SpanOfWords(); }
      ObjFieldWrites(mem, word, i, v);
      assert !UsizeWriteSparesFields(mem, word, i, v);
    }
  }

  ghost predicate UsizeWriteSparesFields(mem: Text, word: nat, i: nat, v: nat)
    requires IsCtor(mem, word) && ObjSlot(word, i) + word <= |mem|
  {
    var mem' := Store(mem, ObjSlot(word, i), word, v);
    IsCtor(mem', word) && Other(mem') == Other(mem) && SameObjFields(mem', mem, word)
  }

  /** `lean_alloc_ctor`: `None` is a panic. */
  method LeanAllocCtor(word: nat, tag: byte, numObjs: byte, scalarSz: nat) returns (r: Option<array<byte>>)
    requires IsWord(word)
    ensures r.Some? <==> 8 + word * numObjs + scalarSz <= 4096
    ensures r.Some? ==>
      var mem := r.value[..];
      && fresh(r.value) && |mem| == 8 + word * numObjs + scalarSz
      && HasHeader(mem, tag, numObjs) && CsSize(mem) == mem[4] as nat + 256 * mem[5] as nat
      && |mem| <= CsSize(mem) < |mem| + 8 && CsSize(mem) % 8 == 0
      && ScalarInRange(mem, word, 0, scalarSz)
  {
    CtorSizesExactly(word, numObjs, scalarSz);
    var sizes := CtorSizes(word, numObjs, scalarSz);
    if sizes.None? { return None; }
    var o := AllocWithStHeader(tag, numObjs, sizes.value.0, sizes.value.1);
    r := Some(o);
  }

  /** `lean_alloc_object` for a small object, and its header. */
  method AllocWithStHeader(tag: byte, other: byte, size: nat, alignedSize: nat) returns (o: array<byte>)
    requires size >= HEADER_SIZE && alignedSize < 0x1_0000
    ensures fresh(o) && o.Length == size && HasHeader(o[..], tag, other)
    ensures CsSize(o[..]) == alignedSize == o[4] as nat + 256 * o[5] as nat
  {
    o := new byte[size];
    SetStHeader(o, tag, other, alignedSize);
  }

  /** `lean_box_uint32`, `lean_box_uint64` and `lean_box_float` (as a bit pattern): one
      constructor without object fields and one scalar, which unboxing reads back. */
  method LeanBoxScalar(word: nat, width: nat, v: nat) returns (o: array<byte>)
    requires IsWord(word) && (width == 4 || width == 8) && v < Span(width)
    ensures fresh(o) && IsCtor(o[..], word) && HasHeader(o[..], 0, 0)
    ensures ScalarInRange(o[..], word, 0, width) && CtorGetScalar(o[..], word, 0, width) == v
    ensures o[8..] == LittleEndian(v, width)
  {
    var r := LeanAllocCtor(word, 0, 0, width);
    o := r.value;
    ghost var mem := o[..];
    LeanCtorSetScalar(o, word, 0, width, v);
    ScalarWrites(mem, word, 0, width, v);
    HeaderReadsFromHeader(o[..], mem);
    TailOverwritten(mem, o[..], 8, LittleEndian(v, width));
  }

  /** `lean_box_usize`, which writes through the slot index instead; with no object fields
      slot 0 is the scalar area. */
  method LeanBoxUsize(word: nat, v: nat) returns (o: array<byte>)
    requires IsWord(word) && v < Span(word)
    ensures fresh(o) && IsCtor(o[..], word) && HasHeader(o[..], 0, 0)
    ensures o[8..] == LittleEndian(v, word) && Load(o[..], ObjSlot(word, 0), word) == v
  {
    var r := LeanAllocCtor(word, 0, 0, word);
    o := r.value;
    ghost var mem := o[..];
    LeanCtorSetUsize(o, word, 0, v);
    LoadAfterStore(mem, ObjSlot(word, 0), word, v);
    HeaderReadsFromHeader(o[..], mem);
    TailOverwritten(mem, o[..], 8, LittleEndian(v, word));
  }

  // ----- arrays -----

  function ArraySize(mem: Text, word: nat): nat
    requires |mem| >= HEADER_SIZE + 2 * word
  {
    Load(mem, HEADER_SIZE, word)
  }

  function ArrayCapacity(mem: Text, word: nat): nat
    requires |mem| >= HEADER_SIZE + 2 * word
  {
    Load(mem, HEADER_SIZE + word, word)
  }

  function ElementSlot(word: nat, i: nat): nat {
    HEADER_SIZE + 2 * word + word * i
  }

  function ArrayElement(mem: Text, word: nat, i: nat): nat
    requires ElementSlot(word, i) + word <= |mem|
  {
    Load(mem, ElementSlot(word, i), word)
  }

  lemma ElementSlotsApart(word: nat, i: nat, j: nat)
    requires i < j
    ensures ElementSlot(word, i) + word <= ElementSlot(word, j)
  {
    SlotsFit(word, i, j);
  }

  /** The header fields of an array, element count and capacity included. */
  ghost predicate SameArrayHeader(a: Text, b: Text, word: nat)
    requires |a| == |b| >= HEADER_SIZE + 2 * word
  {
    a[..HEADER_SIZE + 2 * word] == b[..HEADER_SIZE + 2 * word]
  }

  /** Element count and capacity as they lie behind the header. */
  ghost predicate HasSizes(mem: Text, word: nat, size: nat, capacity: nat) {
    && |mem| >= 8 + 2 * word
    && mem[8..8 + word] == LittleEndian(size, word) && mem[8 + word..8 + 2 * word] == LittleEndian(capacity, word)
    && ArraySize(mem, word) == size && ArrayCapacity(mem, word) == capacity
  }

  method SetSizes(o: array<byte>, word: nat, size: nat, capacity: nat)
    requires IsWord(word) && o.Length >= HEADER_SIZE + 2 * word && size < Span(word) && capacity < Span(word)
    modifies o
    ensures HasSizes(o[..], word, size, capacity)
    ensures o[..8] == old(o[..8])
  {
    SizesStored(o[..], word, size, capacity);
    StoreAt(o, HEADER_SIZE, word, size);
    StoreAt(o, HEADER_SIZE + word, word, capacity);
  }

  lemma StoredBytes(mem: Text, at: nat, width: nat, v: nat)
    requires at + width <= |mem|
    ensures Store(mem, at, width, v)[at..at + width] == LittleEndian(v, width)
    ensures Store(mem, at, width, v)[..at] == mem[..at]
  {
  }

  lemma BytesBefore(a: Text, b: Text, at: nat, lo: nat, hi: nat)
    requires lo <= hi <= at <= |a| == |b| && a[..at] == b[..at]
    ensures a[lo..hi] == b[lo..hi]
  {
    assert a[lo..hi] == a[..at][lo..hi] && b[lo..hi] == b[..at][lo..hi];
  }

  lemma SizesStored(mem: Text, word: nat, size: nat, capacity: nat)
    requires |mem| >= HEADER_SIZE + 2 * word && size < Span(word) && capacity < Span(word)
    ensures var mem' := Store(Store(mem, HEADER_SIZE, word, size), HEADER_SIZE + word, word, capacity);
            HasSizes(mem', word, size, capacity) && mem'[..8] == mem[..8]
  {
    var m1 := Store(mem, HEADER_SIZE, word, size);
    var m2 := Store(m1, HEADER_SIZE + word, word, capacity);
    StoredBytes(mem, HEADER_SIZE, word, size);
    StoredBytes(m1, HEADER_SIZE + word, word, capacity);
    BytesBefore(m2, m1, HEADER_SIZE + word, 8, 8 + word);
    BytesBefore(m2, m1, HEADER_SIZE + word, 0, 8);
    LittleEndianRoundTrip(size, word);
    LittleEndianRoundTrip(capacity, word);
  }

  /** Reference count, tag and `m_other`; the allocators of arrays leave `m_cs_sz` as it is. */
  method SetArrayHeader(o: array<byte>, tag: byte, other: byte)
    requires o.Length >= HEADER_SIZE
    modifies o
    ensures HasHeader(o[..], tag, other) && o[4..6] == old(o[4..6])
  {
    SpanOfWords();
    BytesOfOne();
    StoreAt(o, 0, 4, 1);
    LoadAfterStore(old(o[..]), 0, 4, 1);
    ghost var m1 := o[..];
    o[7] := tag;
    o[6] := other;
    assert o[..][0..4] == m1[0..4];
  }

  /** Fresh memory with the header of an array and `payload` bytes behind it. */
  method AllocWithSizes(word: nat, payload: nat, tag: byte, other: byte, size: nat, capacity: nat)
    returns (o: array<byte>)
    requires IsWord(word) && size < Span(word) && capacity < Span(word)
    ensures fresh(o) && o.Length == 8 + 2 * word + payload
    ensures HasHeader(o[..], tag, other) && HasSizes(o[..], word, size, capacity)
  {
    o := new byte[HEADER_SIZE + 2 * word + payload];
    SetArrayHeader(o, tag, other);
    ghost var m := o[..];
    SetSizes(o, word, size, capacity);
    HeaderReadsFromHeader(m, o[..]);
  }

  /** `lean_alloc_array`; `None` is the panic on overflow of the byte size. */
  method LeanAllocArray(word: nat, size: nat, capacity: nat) returns (r: Option<array<byte>>)
    requires IsWord(word) && size <= capacity < Span(word)
    ensures r.Some? <==> 8 + 2 * word + word * capacity < Span(word)
    ensures r.Some? ==>
      var mem := r.value[..];
      && fresh(r.value) && |mem| == 8 + 2 * word + word * capacity
      && HasHeader(mem, 246, 0) && HasSizes(mem, word, size, capacity)
  {
    var payload := word * capacity;
    if HEADER_SIZE + 2 * word + payload >= Span(word) { return None; }
    var o := AllocWithSizes(word, payload, LEAN_ARRAY, 0, size, capacity);
    r := Some(o);
  }

  /** `lean_alloc_sarray`, for the element sizes its contract allows. */
  method LeanAllocSArray(word: nat, elemSize: nat, size: nat, capacity: nat) returns (r: Option<array<byte>>)
    requires IsWord(word) && elemSize < LINEAR_MARK_MASK as nat && size <= capacity < Span(word)
    ensures r.Some? <==> 8 + 2 * word + elemSize * capacity < Span(word)
    ensures r.Some? ==>
      var mem := r.value[..];
      && fresh(r.value) && |mem| == 8 + 2 * word + elemSize * capacity
      && HasHeader(mem, 248, elemSize) && HasSizes(mem, word, size, capacity)
      && SArrayElemSize(Other(mem)) == elemSize
  {
    var payload := elemSize * capacity;
    if HEADER_SIZE + 2 * word + payload >= Span(word) { return None; }
    var o := AllocWithSizes(word, payload, LEAN_SCALAR_ARRAY, elemSize, size, capacity);
    ElemSizeOf(o, elemSize);
    r := Some(o);
  }

  lemma ElemSizeOf(o: array<byte>, elemSize: nat)
    requires o.Length >= HEADER_SIZE && Other(o[..]) == elemSize && elemSize < LINEAR_MARK_MASK as nat
    ensures SArrayElemSize(Other(o[..])) == elemSize
  {
    ElemSizeIgnoresLinearMark(elemSize);
  }

  lemma HeaderReadsFromHeader(a: Text, b: Text)
    requires |a| == |b| >= HEADER_SIZE && a[..HEADER_SIZE] == b[..HEADER_SIZE]
    ensures Rc(a) == Rc(b) && CsSize(a) == CsSize(b) && Other(a) == Other(b) && Tag(a) == Tag(b)
  {
    assert forall i :: 0 <= i < HEADER_SIZE ==> a[i] == a[..HEADER_SIZE][i] == b[i];
    assert a[0..4] == b[0..4] && a[4..6] == b[4..6];
    assert forall i :: 0 <= i < 4 ==> a[i] == b[i];
  }

  /** `lean_sarray_elem_size`: `m_other` with the linearity marker masked out. */
  function SArrayElemSize(other: byte): nat {
    PowersOfWords();
    BitAnd(other, Complement(LINEAR_MARK_MASK, 8))
  }

  lemma MaskedByte(x: byte)
    ensures SArrayElemSize(x) == x % 128
  {
    PowersOfWords();
    AndKeepsLowBits(x, 7);
    LowBitsAreRemainder(x, 7);
  }

  /** The element size is what was stored, whether or not the object is marked linear. */
  lemma ElemSizeIgnoresLinearMark(elemSize: nat)
    requires elemSize < LINEAR_MARK_MASK as nat
    ensures SArrayElemSize(elemSize) == elemSize && SArrayElemSize(elemSize + LINEAR_MARK_MASK) == elemSize
  {
    var marked: byte := elemSize + 128;
    assert elemSize % 128 == elemSize && marked % 128 == elemSize;
    MaskedByte(elemSize);
    MaskedByte(marked);
  }

  lemma ElementWriteFrame(mem: Text, word: nat, i: nat, v: nat, j: nat)
    requires IsWord(word) && ElementSlot(word, i) + word <= |mem|
    requires j != i && ElementSlot(word, j) + word <= |mem|
    ensures ArrayElement(Store(mem, ElementSlot(word, i), word, v), word, j) == ArrayElement(mem, word, j)
  {
    if j < i { ElementSlotsApart(word, j, i); } else { ElementSlotsApart(word, i, j); }
    LoadFrame(mem, ElementSlot(word, i), word, v, ElementSlot(word, j), word);
  }

  lemma StorePastArrayHeader(mem: Text, word: nat, at: nat, v: nat)
    requires HEADER_SIZE + 2 * word <= at && at + word <= |mem|
    ensures SameArrayHeader(Store(mem, at, word, v), mem, word)
  {
  }

  ghost predicate SameElementsBut(a: Text, b: Text, word: nat, i: nat)
    requires |a| == |b|
  {
    forall j: nat :: j != i && ElementSlot(word, j) + word <= |a| ==> ArrayElement(a, word, j) == ArrayElement(b, word, j)
  }

  lemma ElementWriteSparesOthers(mem: Text, mem': Text, word: nat, i: nat, v: nat)
    requires IsWord(word) && ElementSlot(word, i) + word <= |mem|
    requires mem' == Store(mem, ElementSlot(word, i), word, v)
    ensures SameElementsBut(mem', mem, word, i)
  {
    forall j: nat | j != i && ElementSlot(word, j) + word <= |mem|
      ensures ArrayElement(mem', word, j) == ArrayElement(mem, word, j)
    {
      ElementWriteFrame(mem, word, i, v, j);
    }
  }

  /** Storing element `i` reads back and touches neither the header nor any other element. */
  lemma ElementWrites(mem: Text, word: nat, i: nat, v: nat)
    requires IsWord(word) && ElementSlot(word, i) + word <= |mem| && v < Span(word)
    ensures var mem' := Store(mem, ElementSlot(word, i), word, v);
            && ArrayElement(mem', word, i) == v && SameArrayHeader(mem', mem, word)
            && SameElementsBut(mem', mem, word, i)
  {
    var mem' := Store(mem, ElementSlot(word, i), word, v);
    LoadAfterStore(mem, ElementSlot(word, i), word, v);
    StorePastArrayHeader(mem, word, ElementSlot(word, i), v);
    ElementWriteSparesOthers(mem, mem', word, i, v);
  }

  /** `lean_array_set_core`: the element reads back; header, element count, capacity and every
      other element stay. */
  method LeanArraySetCore(o: array<byte>, word: nat, i: nat, v: nat)
    requires IsWord(word) && ElementSlot(word, i) + word <= o.Length && v < Span(word)
    modifies o
    ensures ArrayElement(o[..], word, i) == v && SameArrayHeader(o[..], old(o[..]), word)
    ensures SameElementsBut(o[..], old(o[..]), word, i)
    ensures Overwritten(old(o[..]), o[..], 8 + 2 * word + word * i, LittleEndian(v, word))
  {
    ElementWrites(o[..], word, i, v);
    StoreAt(o, ElementSlot(word, i), word, v);
  }
}
