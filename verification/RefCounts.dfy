/** Sign-encoded reference counts (crates/lean-rs-sys/src/refcount.rs:52-180,
    crates/lean-rs-sys/src/io.rs:83-92) over a heap of objects that own one another. */
module RefCounts {
  import opened Prelude

  const I32_MAX: int := 0x7FFF_FFFF
  const I32_LIMIT: int := 0x8000_0000

  type i32 = n: int | -I32_LIMIT <= n <= I32_MAX

  /** `n as i32`, and the wrap-around of `fetch_sub`. */
  function WrapI32(n: int): i32 {
    (n + I32_LIMIT) % (2 * I32_LIMIT) - I32_LIMIT
  }

  datatype Mode = SingleThreaded | MultiThreaded | Persistent

  function ModeOf(rc: i32): Mode {
    if rc > 0 then SingleThreaded else if rc < 0 then MultiThreaded else Persistent
  }

  /** The number of references the field stands for; meaningless for persistent objects. */
  function LiveCount(rc: i32): nat {
    var n: int := rc;
    if n >= 0 then n else -n
  }

  /** `lean_inc_ref_n` on the field: `None` is the panic of `strict_add`. */
  function IncRefN(cur: i32, n: nat): Option<i32> {
    var delta := WrapI32(n);
    if cur > 0 then
      if -I32_LIMIT <= cur + delta <= I32_MAX then Some(cur + delta) else None
    else if cur != 0 then Some(WrapI32(cur - delta))
    else Some(cur)
  }

  /** The new count can be encoded without changing the mode. */
  predicate Fits(rc: i32, n: nat) {
    rc == 0 || LiveCount(rc) + n <= (if rc > 0 then I32_MAX else I32_LIMIT)
  }

  /** An increment counts correctly and keeps the mode exactly when the new count fits: up to
      2^31 - 1 for a single-threaded object, up to 2^31 for a multi-threaded one. */
  lemma IncrementExactly(cur: i32, n: nat)
    requires cur != 0
    ensures (var r := IncRefN(cur, n);
             r.Some? && ModeOf(r.value) == ModeOf(cur) && LiveCount(r.value) == LiveCount(cur) + n)
        <==> Fits(cur, n)
  {
    WrapIsCongruent(n);
    if cur < 0 { WrapIsCongruent(cur - WrapI32(n)); }
  }

  /** The panic, exactly: a single-threaded count and the increment, taken as 32 bits, together
      reach 2^31. */
  lemma IncrementPanicsExactly(cur: i32, n: nat)
    ensures IncRefN(cur, n).None? <==>
              cur > 0 && n % 0x1_0000_0000 < 0x8000_0000 && cur + n % 0x1_0000_0000 >= 0x8000_0000
  {
    WrapIsCongruent(n);
  }

  lemma WrapIsCongruent(n: int)
    ensures var m := n % 0x1_0000_0000; WrapI32(n) == if m < 0x8000_0000 then m else m - 0x1_0000_0000
  {
    SameRemainder(n, n / 0x1_0000_0000, n % 0x1_0000_0000);
  }

  lemma SameRemainder(n: int, q: int, m: int)
    requires n == 0x1_0000_0000 * q + m && 0 <= m < 0x1_0000_0000
    ensures (n + 0x8000_0000) % 0x1_0000_0000
         == if m < 0x8000_0000 then m + 0x8000_0000 else m - 0x8000_0000
  {
  }

  /** A count that does not panic is the exact one modulo 2^32, whatever the increment; a
      persistent object is not counted. */
  lemma IncrementWraps(cur: i32, n: nat)
    ensures cur == 0 ==> IncRefN(cur, n) == Some(0)
    ensures cur > 0 && IncRefN(cur, n).Some? ==> (IncRefN(cur, n).value - (cur + n)) % 0x1_0000_0000 == 0
    ensures cur < 0 ==> IncRefN(cur, n).Some? && (IncRefN(cur, n).value - (cur - n)) % 0x1_0000_0000 == 0
  {
    WrapIsCongruent(n);
    var delta := WrapI32(n);
    Congruent(n, delta);
    if cur < 0 {
      WrapIsCongruent(cur - delta);
      Congruent(cur - delta, WrapI32(cur - delta));
      SameDifference(WrapI32(cur - delta), cur - delta, cur - n);
    }
  }

  lemma Congruent(n: int, w: int)
    requires var m := n % 0x1_0000_0000; w == m || w == m - 0x1_0000_0000
    ensures (w - n) % 0x1_0000_0000 == 0
  {
  }

  lemma SameDifference(a: int, b: int, c: int)
    requires (a - b) % 0x1_0000_0000 == 0 && (b - c) % 0x1_0000_0000 == 0
    ensures (a - c) % 0x1_0000_0000 == 0
  {
  }

  // ----- the heap -----

  type Address = nat

  datatype ObjectRef = Scalar(payload: nat) | Pointer(address: Address)

  datatype LeanObject = LeanObject(rc: i32, tag: byte, fields: seq<ObjectRef>)

  datatype Cell = Freed | Allocated(obj: LeanObject)

  predicate IsLive(cells: seq<Cell>, a: Address) {
    a < |cells| && cells[a].Allocated?
  }

  function Occurrences(refs: seq<ObjectRef>, a: Address): nat {
    if refs == [] then 0
    else Occurrences(refs[..|refs| - 1], a) + if refs[|refs| - 1] == Pointer(a) then 1 else 0
  }

  function OwnedFields(cell: Cell): seq<ObjectRef> {
    if cell.Freed? then [] else cell.obj.fields
  }

  /** How many fields of live objects hold `a`. */
  function Incoming(cells: seq<Cell>, a: Address): nat {
    if cells == [] then 0
    else Incoming(cells[..|cells| - 1], a) + Occurrences(OwnedFields(cells[|cells| - 1]), a)
  }

  /** Every pointer held outside (`held`) or in a live object's field leads to a live object,
      and the count of every object that is not persistent is the number of its owners. */
  ghost predicate CountsAreOwners(cells: seq<Cell>, held: multiset<Address>) {
    && (forall a: Address :: held[a] + Incoming(cells, a) > 0 ==> IsLive(cells, a))
    && (forall a: Address :: IsLive(cells, a) && cells[a].obj.rc != 0 ==>
          LiveCount(cells[a].obj.rc) == held[a] + Incoming(cells, a))
  }

  /** The heap only shrinks: objects may be freed, the survivors keep their tag, fields and
      mode, and persistent objects are untouched. */
  ghost predicate OnlyReleases(before: seq<Cell>, after: seq<Cell>) {
    && |after| == |before|
    && (forall a :: 0 <= a < |after| && after[a].Allocated? ==> Survives(before[a], after[a]))
    && (forall a :: 0 <= a < |before| && before[a].Allocated? && before[a].obj.rc == 0 ==> after[a] == before[a])
  }

  ghost predicate Survives(before: Cell, after: Cell)
    requires after.Allocated?
  {
    && before.Allocated?
    && after.obj == before.obj.(rc := after.obj.rc)
    && ModeOf(after.obj.rc) == ModeOf(before.obj.rc)
  }

  lemma ReleasesCompose(a: seq<Cell>, b: seq<Cell>, c: seq<Cell>)
    requires OnlyReleases(a, b) && OnlyReleases(b, c)
    ensures OnlyReleases(a, c)
  {
    forall i | 0 <= i < |c| && c[i].Allocated? ensures Survives(a[i], c[i]) {
      assert Survives(b[i], c[i]) && Survives(a[i], b[i]);
    }
  }

  /** The references in a list, as handles. */
  function Handles(refs: seq<ObjectRef>): multiset<Address> {
    if refs == [] then multiset{}
    else
      var last := refs[|refs| - 1];
      Handles(refs[..|refs| - 1]) + if last.Pointer? then multiset{last.address} else multiset{}
  }

  lemma {:induction false} HandlesCountOccurrences(refs: seq<ObjectRef>, a: Address)
    ensures Handles(refs)[a] == Occurrences(refs, a)
  {
    if refs != [] { HandlesCountOccurrences(refs[..|refs| - 1], a); }
  }

  lemma {:induction false} HandlesConcat(xs: seq<ObjectRef>, ys: seq<ObjectRef>)
    ensures Handles(xs + ys) == Handles(xs) + Handles(ys)
  {
    if ys == [] {
      assert xs + ys == xs;
    } else {
      HandlesConcat(xs, ys[..|ys| - 1]);
      assert (xs + ys)[..|xs + ys| - 1] == xs + ys[..|ys| - 1];
    }
  }

  /** Replacing one cell changes the incoming count by the difference of the two cells. */
  lemma {:induction false} IncomingUpdate(cells: seq<Cell>, i: nat, cell: Cell, a: Address)
    requires i < |cells|
    ensures Incoming(cells[i := cell], a) + Occurrences(OwnedFields(cells[i]), a)
         == Incoming(cells, a) + Occurrences(OwnedFields(cell), a)
  {
    var n := |cells| - 1;
    if i < n {
      IncomingUpdate(cells[..n], i, cell, a);
      assert cells[i := cell][..n] == cells[..n][i := cell];
    } else {
      assert cells[i := cell][..n] == cells[..n];
    }
  }

  lemma {:induction false} IncomingAtLeast(cells: seq<Cell>, i: nat, a: Address)
    requires i < |cells|
    ensures Occurrences(OwnedFields(cells[i]), a) <= Incoming(cells, a)
  {
    if i < |cells| - 1 { IncomingAtLeast(cells[..|cells| - 1], i, a); }
  }

  /** A changed count with matching handles keeps the accounts. */
  lemma RecountKeepsAccounts(cells: seq<Cell>, a: Address, rc: i32, held: multiset<Address>, held': multiset<Address>)
    requires CountsAreOwners(cells, held) && IsLive(cells, a)
    requires forall b: Address :: b != a ==> held'[b] == held[b]
    requires var before := cells[a].obj.rc;
             if before == 0 then rc == 0 else LiveCount(rc) + held[a] == LiveCount(before) + held'[a]
    ensures CountsAreOwners(cells[a := Allocated(cells[a].obj.(rc := rc))], held')
  {
    var cells' := cells[a := Allocated(cells[a].obj.(rc := rc))];
    forall b: Address ensures Incoming(cells', b) == Incoming(cells, b) {
      IncomingUpdate(cells, a, cells'[a], b);
    }
  }

  /** Freeing the last reference: the object's fields become handles of whoever frees it. */
  lemma FreeKeepsAccounts(cells: seq<Cell>, a: Address, held: multiset<Address>)
    requires CountsAreOwners(cells, held + multiset{a}) && IsLive(cells, a)
    requires LiveCount(cells[a].obj.rc) == 1
    ensures CountsAreOwners(cells[a := Freed], held + Handles(cells[a].obj.fields))
  {
    var cells', fields := cells[a := Freed], cells[a].obj.fields;
    var held0, held' := held + multiset{a}, held + Handles(fields);
    forall b: Address ensures held'[b] + Incoming(cells', b) == held[b] + Incoming(cells, b) {
      IncomingUpdate(cells, a, Freed, b);
      HandlesCountOccurrences(fields, b);
    }
    assert held0[a] == held[a] + 1;
    assert held[a] + Incoming(cells, a) == 0;
    assert forall b: Address :: b != a ==> held0[b] == held[b];
  }

  /** Objects of Lean's heap, and the count updates Rust performs on them in place. */
  class LeanHeap {
    var cells: seq<Cell>

    constructor (cells: seq<Cell>)
      ensures this.cells == cells
    {
      this.cells := cells;
    }

    /** `lean_inc_ref_n`. It panics exactly when a single-threaded count would leave `i32`;
        as long as the new count fits, the accounts gain `n` handles. */
    method LeanIncRefN(a: Address, n: nat, ghost held: multiset<Address>) returns (panicked: bool)
      requires CountsAreOwners(cells, held) && IsLive(cells, a)
      modifies this
      ensures IsLive(cells, a) && cells == old(cells)[a := cells[a]]
      ensures cells[a].obj == old(cells)[a].obj.(rc := cells[a].obj.rc)
      ensures panicked <==> IncRefN(old(cells)[a].obj.rc, n).None?
      ensures panicked ==> cells == old(cells)
      ensures !panicked ==> cells[a].obj.rc == IncRefN(old(cells)[a].obj.rc, n).value
      ensures Fits(old(cells)[a].obj.rc, n) ==>
        !panicked && CountsAreOwners(cells, held[a := held[a] + n]) && Survives(old(cells)[a], cells[a])
    {
      var obj := cells[a].obj;
      var cur := obj.rc;
      var delta := WrapI32(n);
      if Fits(cur, n) {
        if cur != 0 { IncrementExactly(cur, n); }
        RecountKeepsAccounts(cells, a, IncRefN(cur, n).value, held, held[a := held[a] + n]);
      }
      if cur > 0 {
        if cur + delta > I32_MAX || cur + delta < -I32_LIMIT { return true; }
        cells := cells[a := Allocated(obj.(rc := cur + delta))];
      } else if cur != 0 {
        cells := cells[a := Allocated(obj.(rc := WrapI32(cur - delta)))];
      } else {
        assert cells[a := Allocated(obj.(rc := 0))] == cells;
      }
      panicked := false;
    }

    /** `lean_inc`: a scalar is left alone. */
    method LeanInc(o: ObjectRef, ghost held: multiset<Address>)
      requires CountsAreOwners(cells, held)
      requires o.Pointer? ==> IsLive(cells, o.address) && Fits(cells[o.address].obj.rc, 1)
      modifies this
      ensures CountsAreOwners(cells, held + Handles([o]))
      ensures o.Scalar? ==> cells == old(cells)
      ensures o.Pointer? ==>
        && IsLive(cells, o.address) && cells == old(cells)[o.address := cells[o.address]]
        && Survives(old(cells)[o.address], cells[o.address])
    {
      SingleHandle(o);
      if o.Pointer? {
        var panicked := LeanIncRefN(o.address, 1, held);
        assert held[o.address := held[o.address] + 1] == held + Handles([o]);
      } else {
        assert held + Handles([o]) == held;
      }
    }

    /** `lean_inc_n`: `n` handles to the same object at once. */
    method LeanIncN(o: ObjectRef, n: nat, ghost held: multiset<Address>)
      requires CountsAreOwners(cells, held)
      requires o.Pointer? ==> IsLive(cells, o.address) && Fits(cells[o.address].obj.rc, n)
      modifies this
      ensures o.Scalar? ==> cells == old(cells)
      ensures o.Pointer? ==>
        && CountsAreOwners(cells, held[o.address := held[o.address] + n])
        && IsLive(cells, o.address) && cells == old(cells)[o.address := cells[o.address]]
        && Survives(old(cells)[o.address], cells[o.address])
    {
      if o.Pointer? {
        var panicked := LeanIncRefN(o.address, n, held);
      }
    }

    /** What `lean_dec_ref_cold` is for: give up one reference, and free every object whose
        last reference goes with it. A multi-threaded count is subtracted here. */
    method LeanDecRefCold(a: Address, ghost held: multiset<Address>)
      requires CountsAreOwners(cells, held) && a in held && cells[a].obj.rc != 0
      modifies this
      ensures CountsAreOwners(cells, held - multiset{a}) && OnlyReleases(old(cells), cells)
    {
      var todo: seq<ObjectRef> := [Pointer(a)];
      ghost var rest := held - multiset{a};
      SingleHandle(Pointer(a));
      assert rest + Handles(todo) == held;
      while todo != []
        invariant CountsAreOwners(cells, rest + Handles(todo))
        invariant OnlyReleases(old(cells), cells)
        decreases LiveCells(cells), |todo|
      {
        ghost var before := cells;
        todo := ReleaseLast(todo, rest);
        ReleasesCompose(old(cells), before, cells);
      }
      assert rest + Handles(todo) == rest;
    }

    /** The last reference of the list goes. If it was the last one to its object, the object
        is freed and its fields join the list. */
    method ReleaseLast(todo: seq<ObjectRef>, ghost rest: multiset<Address>) returns (next: seq<ObjectRef>)
      requires todo != [] && CountsAreOwners(cells, rest + Handles(todo))
      modifies this
      ensures CountsAreOwners(cells, rest + Handles(next)) && OnlyReleases(old(cells), cells)
      ensures LiveCells(cells) < LiveCells(old(cells)) || (LiveCells(cells) == LiveCells(old(cells)) && |next| < |todo|)
    {
      var last := todo[|todo| - 1];
      next := todo[..|todo| - 1];
      if last.Scalar? { return; }
      ghost var others := rest + Handles(next);
      assert rest + Handles(todo) == others + multiset{last.address};
      var fields := ReleaseOne(last.address, others);
      HandlesConcat(next, fields);
      assert others + Handles(fields) == rest + Handles(next + fields);
      if fields != [] {
        next := next + fields;
      } else {
        assert next + fields == next;
      }
    }

    /** One reference to `a` goes; the fields of the object, if that frees it, are returned. */
    method ReleaseOne(a: Address, ghost others: multiset<Address>) returns (fields: seq<ObjectRef>)
      requires CountsAreOwners(cells, others + multiset{a})
      modifies this
      ensures CountsAreOwners(cells, others + Handles(fields)) && OnlyReleases(old(cells), cells)
      ensures LiveCells(cells) < LiveCells(old(cells)) || (LiveCells(cells) == LiveCells(old(cells)) && fields == [])
    {
      assert (others + multiset{a})[a] > 0;
      var obj := cells[a].obj;
      if LiveCount(obj.rc) == 1 {
        FreeKeepsAccounts(cells, a, others);
        FreeShrinks(cells, a);
        cells := cells[a := Freed];
        fields := obj.fields;
      } else {
        StoreCount(a, if obj.rc == 0 then 0 else if obj.rc > 0 then obj.rc - 1 else obj.rc + 1, others);
        fields := [];
        assert others + Handles([]) == others;
      }
    }

    /** `lean_dec_ref`: in place when more than one single-threaded reference is left. */
    method LeanDecRef(a: Address, ghost held: multiset<Address>)
      requires CountsAreOwners(cells, held) && a in held
      modifies this
      ensures CountsAreOwners(cells, held - multiset{a}) && OnlyReleases(old(cells), cells)
    {
      ghost var others := held - multiset{a};
      assert others + multiset{a} == held;
      var cur := cells[a].obj.rc;
      if cur > 1 {
        StoreCount(a, cur - 1, others);
      } else if cur != 0 {
        LeanDecRefCold(a, held);
      } else {
        StoreCount(a, 0, others);
      }
    }

    /** One reference to `a` goes and others remain. */
    method StoreCount(a: Address, rc: i32, ghost others: multiset<Address>)
      requires CountsAreOwners(cells, others + multiset{a}) && IsLive(cells, a)
      requires ModeOf(rc) == ModeOf(cells[a].obj.rc)
      requires cells[a].obj.rc != 0 ==> LiveCount(rc) + 1 == LiveCount(cells[a].obj.rc)
      modifies this
      ensures CountsAreOwners(cells, others) && OnlyReleases(old(cells), cells)
      ensures LiveCells(cells) == LiveCells(old(cells))
    {
      RecountKeepsAccounts(cells, a, rc, others + multiset{a}, others);
      RecountKeepsLive(cells, a, rc);
      cells := cells[a := Allocated(cells[a].obj.(rc := rc))];
    }

    /** `lean_dec`. */
    method LeanDec(o: ObjectRef, ghost held: multiset<Address>)
      requires CountsAreOwners(cells, held) && (o.Pointer? ==> o.address in held)
      modifies this
      ensures CountsAreOwners(cells, held - Handles([o])) && OnlyReleases(old(cells), cells)
      ensures o.Scalar? ==> cells == old(cells)
    {
      SingleHandle(o);
      if o.Pointer? {
        LeanDecRef(o.address, held);
      } else {
        assert held - Handles([o]) == held;
      }
    }

    /** `lean_io_result_take_value`: increment the payload, then give up the result. The
        payload survives, with its fields, even when the result object is freed. */
    method LeanIoResultTakeValue(r: Address, ghost held: multiset<Address>) returns (v: ObjectRef)
      requires CountsAreOwners(cells, held) && r in held
      requires cells[r].obj.tag == 0 && cells[r].obj.fields != []
      requires var p := cells[r].obj.fields[0];
               p.Pointer? ==> IsLive(cells, p.address) && Fits(cells[p.address].obj.rc, 1)
      modifies this
      ensures v == old(cells)[r].obj.fields[0]
      ensures CountsAreOwners(cells, held + Handles([v]) - multiset{r})
      ensures v.Pointer? ==> IsLive(cells, v.address) && Survives(old(cells)[v.address], cells[v.address])
      ensures |cells| == |old(cells)|
      ensures forall b :: 0 <= b < |cells| && cells[b].Allocated? ==> Survives(old(cells)[b], cells[b])
    {
      v := cells[r].obj.fields[0];
      SingleHandle(v);
      LeanInc(v, held);
      ghost var owned := held + Handles([v]);
      assert r in owned;
      SingleHandle(Pointer(r));
      LeanDec(Pointer(r), owned);
      if v.Pointer? {
        assert (owned - multiset{r})[v.address] > 0 by {
          if v.address == r { assert owned[r] >= 2; }
        }
      }
    }
  }

  lemma SingleHandle(o: ObjectRef)
    ensures Handles([o]) == if o.Pointer? then multiset{o.address} else multiset{}
  {
    assert [o][..0] == [];
  }

  function LiveCells(cells: seq<Cell>): nat {
    if cells == [] then 0 else LiveCells(cells[..|cells| - 1]) + if cells[|cells| - 1].Allocated? then 1 else 0
  }

  lemma {:induction false} FreeShrinks(cells: seq<Cell>, a: nat)
    requires IsLive(cells, a)
    ensures LiveCells(cells[a := Freed]) == LiveCells(cells) - 1
  {
    var n := |cells| - 1;
    if a < n {
      FreeShrinks(cells[..n], a);
      assert cells[a := Freed][..n] == cells[..n][a := Freed];
    } else {
      assert cells[a := Freed][..n] == cells[..n];
    }
  }

  lemma {:induction false} RecountKeepsLive(cells: seq<Cell>, a: nat, rc: i32)
    requires IsLive(cells, a)
    ensures LiveCells(cells[a := Allocated(cells[a].obj.(rc := rc))]) == LiveCells(cells)
  {
    var n := |cells| - 1;
    var cell := Allocated(cells[a].obj.(rc := rc));
    if a < n {
      RecountKeepsLive(cells[..n], a, rc);
      assert cells[a := cell][..n] == cells[..n][a := cell];
    } else {
      assert cells[a := cell][..n] == cells[..n];
    }
  }

  // ----- consequences -----

  lemma {:induction false} ReleaseLowersIncoming(before: seq<Cell>, after: seq<Cell>, a: Address)
    requires |after| == |before|
    requires forall i :: 0 <= i < |after| && after[i].Allocated? ==>
               before[i].Allocated? && after[i].obj.fields == before[i].obj.fields
    ensures Incoming(after, a) <= Incoming(before, a)
  {
    if after != [] {
      var n := |after| - 1;
      ReleaseLowersIncoming(before[..n], after[..n], a);
    }
  }

  /** No leak: giving up the only reference to an object that is not persistent frees it,
      however large the structure below it. */
  lemma LastReferenceFrees(before: seq<Cell>, after: seq<Cell>, held: multiset<Address>, a: Address)
    requires CountsAreOwners(before, held) && a in held
    requires CountsAreOwners(after, held - multiset{a}) && OnlyReleases(before, after)
    requires LiveCount(before[a].obj.rc) == 1
    ensures after[a].Freed?
  {
    ReleaseLowersIncoming(before, after, a);
    assert (held - multiset{a})[a] == held[a] - 1;
  }

  /** No use after free: whatever is still held from outside stays allocated. */
  lemma HeldObjectsSurvive(before: seq<Cell>, after: seq<Cell>, held: multiset<Address>, a: Address, b: Address)
    requires CountsAreOwners(before, held) && a in held && b in held && b != a
    requires CountsAreOwners(after, held - multiset{a}) && OnlyReleases(before, after)
    ensures IsLive(after, b) && after[b].obj.fields == before[b].obj.fields
  {
    assert (held - multiset{a})[b] > 0;
  }
}
