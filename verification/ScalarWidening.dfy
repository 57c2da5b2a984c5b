/** Tagged-pointer integers on 32- and 64-bit hosts (crates/lean-rs-sys/src/object.rs:51-76,
    crates/lean-rs-sys/src/scalar.rs:29-208, crates/lean-rs-sys/src/nat_int.rs:8-23). The
    big-number allocators and readers are Lean's: they are taken to hold and to read the
    number they are given. */
module ScalarWidening {
  import opened Prelude

  datatype Host = Host32 | Host64

  /** The number of values of a `usize`. */
  function Words(host: Host): (m: int)
    ensures m == U32_MODULUS || m == U64_MODULUS
  {
    if host.Host32? then U32_MODULUS else U64_MODULUS
  }

  /** A Lean `Nat` or `Int`: a tagged word, or a big number on the heap. */
  datatype Value = Tagged(word: nat) | Big(number: int)

  // ----- words -----

  function LeanIsScalar(word: nat): bool {
    word % 2 == 1
  }

  /** `(n << 1) | 1`: the top bit of `n` is shifted out. */
  function LeanBox(host: Host, n: nat): nat {
    2 * n % Words(host) + 1
  }

  function LeanUnbox(word: nat): nat {
    word / 2
  }

  /** Reinterpretation of an unsigned word as signed. */
  function AsSigned(n: nat, modulus: int): int
    requires modulus > 0
  {
    if 2 * n < modulus then n else n - modulus
  }

  /** `n as u32` of a signed number. */
  function AsU32(n: int): (r: nat)
    ensures r < U32_MODULUS
  {
    n % U32_MODULUS
  }

  /** `usize::MAX >> 1`. */
  function MaxSmallNat(host: Host): nat {
    (Words(host) - 1) / 2
  }

  function MaxSmallInt(host: Host): int {
    if host.Host64? then 0x7FFF_FFFF else 0x3FFF_FFFF
  }

  function MinSmallInt(host: Host): int {
    if host.Host64? then -0x8000_0000 else -0x4000_0000
  }

  // ----- what a value denotes -----

  /** `lean_scalar_to_int64`: the low 32 bits of the payload on 64-bit hosts, an arithmetic
      shift of the word on 32-bit ones. */
  function LeanScalarToInt64(host: Host, word: nat): int {
    if host.Host64? then AsSigned(LeanUnbox(word) % U32_MODULUS, U32_MODULUS)
    else AsSigned(word % U32_MODULUS, U32_MODULUS) / 2
  }

  /** `lean_scalar_to_int`: the same, cut to 32 bits. */
  function LeanScalarToInt(host: Host, word: nat): int {
    AsSigned(AsU32(LeanScalarToInt64(host, word)), U32_MODULUS)
  }

  function NatOf(v: Value): int {
    match v
    case Tagged(word) => LeanUnbox(word)
    case Big(n) => n
  }

  function IntOf(host: Host, v: Value): int {
    match v
    case Tagged(word) => LeanScalarToInt64(host, word)
    case Big(n) => n
  }

  /** A tagged word of this host. */
  predicate WellFormed(host: Host, v: Value) {
    v.Tagged? ==> LeanIsScalar(v.word) && v.word < Words(host)
  }

  // ----- widening -----

  function LeanUsizeToNat(host: Host, n: nat): Value {
    if n <= MaxSmallNat(host) then Tagged(LeanBox(host, n)) else Big(n)
  }

  function LeanUint64ToNat(host: Host, n: nat): Value {
    var truncated := n % Words(host);
    if truncated == n && truncated <= MaxSmallNat(host) then Tagged(LeanBox(host, truncated)) else Big(n)
  }

  function LeanIntToInt(host: Host, n: int): Value {
    var fits := host.Host64? || MinSmallInt(host) <= n <= MaxSmallInt(host);
    if fits then Tagged(LeanBox(host, AsU32(n))) else Big(n)
  }

  function LeanInt64ToInt(host: Host, n: int): Value {
    if MinSmallInt(host) <= n <= MaxSmallInt(host) then Tagged(LeanBox(host, AsU32(n))) else Big(n)
  }

  function LeanNatToInt(host: Host, a: Value): Value {
    if a.Big? then a
    else
      var v := LeanUnbox(a.word);
      if v <= MaxSmallInt(host) then a else Big(v)
  }

  /** `lean_uint8_of_nat`. */
  function LeanUint8OfNat(a: Value): int {
    match a
    case Tagged(word) => LeanUnbox(word) % 256
    case Big(n) => n % 256
  }

  // ----- theorems -----

  lemma Wraps(host: Host, n: nat)
    ensures n < Words(host) ==> n % Words(host) == n
    ensures Words(host) <= n < 2 * Words(host) ==> n % Words(host) == n - Words(host)
    ensures n % Words(host) < Words(host)
  {
    if host.Host32? {
      assert Words(host) == U32_MODULUS;
    } else {
      assert Words(host) == U64_MODULUS;
    }
  }

  lemma Halves(n: nat)
    ensures (2 * n + 1) / 2 == n && (2 * n + 1) % 2 == 1
  {
  }

  /** Boxing is tagged and loses nothing exactly when the top bit is clear. */
  lemma BoxUnbox(host: Host, n: nat)
    requires n < Words(host)
    ensures LeanIsScalar(LeanBox(host, n)) && LeanBox(host, n) < Words(host)
    ensures LeanUnbox(LeanBox(host, n)) == n <==> n <= MaxSmallNat(host)
    ensures n <= MaxSmallNat(host) ==> LeanBox(host, n) == 2 * n + 1
  {
    var half := Words(host) / 2;
    assert Words(host) == 2 * half && MaxSmallNat(host) == half - 1;
    Wraps(host, 2 * n);
    if n < half {
      Halves(n);
    } else {
      Halves(n - half);
      assert LeanBox(host, n) == 2 * (n - half) + 1;
    }
  }

  /** Every `usize` and `u64` becomes a `Nat` denoting it, tagged exactly in the small range. */
  lemma NatWideningExactly(host: Host, n: u64)
    ensures var v := LeanUint64ToNat(host, n);
            && WellFormed(host, v) && NatOf(v) == n
            && (v.Tagged? <==> n < if host.Host64? then 0x8000_0000_0000_0000 else 0x8000_0000)
    ensures n < Words(host) ==> LeanUsizeToNat(host, n) == LeanUint64ToNat(host, n)
  {
    Wraps(host, n);
    if n < Words(host) { BoxUnbox(host, n); }
  }

  lemma AsU32Of(n: int)
    requires -0x8000_0000 <= n < 0x8000_0000
    ensures AsU32(n) == (if n >= 0 then n else n + U32_MODULUS) && AsSigned(AsU32(n), U32_MODULUS) == n
  {
  }

  lemma Small64(n: int)
    requires MinSmallInt(Host64) <= n <= MaxSmallInt(Host64)
    ensures var word := LeanBox(Host64, AsU32(n));
            LeanIsScalar(word) && word < Words(Host64) && LeanScalarToInt64(Host64, word) == n
  {
    var u := AsU32(n);
    AsU32Of(n);
    Wraps(Host64, 2 * u);
    Halves(u);
    Wraps(Host32, u);
  }

  lemma Small32(n: int)
    requires MinSmallInt(Host32) <= n <= MaxSmallInt(Host32)
    ensures var word := LeanBox(Host32, AsU32(n));
            LeanIsScalar(word) && word < Words(Host32) && LeanScalarToInt64(Host32, word) == n
  {
    var u := AsU32(n);
    AsU32Of(n);
    Wraps(Host32, 2 * u);
    var word := LeanBox(Host32, u);
    assert word == if n >= 0 then 2 * n + 1 else 2 * n + U32_MODULUS + 1;
    Wraps(Host32, word);
    assert AsSigned(word, U32_MODULUS) == 2 * n + 1;
  }

  /** A boxed number in the small range, negative or not, is recovered with its sign. */
  lemma SmallIntRoundTrip(host: Host, n: int)
    requires MinSmallInt(host) <= n <= MaxSmallInt(host)
    ensures var word := LeanBox(host, AsU32(n));
            && LeanIsScalar(word) && word < Words(host)
            && LeanScalarToInt64(host, word) == n && LeanScalarToInt(host, word) == n
  {
    AsU32Of(n);
    if host.Host64? { Small64(n); } else { Small32(n); }
  }

  /** What a tagged word reads as, whatever its payload: on 64-bit hosts the low 32 bits of
      the payload with their sign, on 32-bit ones the whole payload with its sign. */
  lemma TaggedWordReads(host: Host, payload: nat)
    requires 2 * payload + 1 < Words(host)
    ensures var r := LeanScalarToInt64(host, 2 * payload + 1);
            if host.Host64? then
              && -0x8000_0000 <= r < 0x8000_0000
              && r == payload % 0x1_0000_0000 - if payload % 0x1_0000_0000 < 0x8000_0000 then 0 else 0x1_0000_0000
            else r == payload - if payload < 0x4000_0000 then 0 else 0x8000_0000
    ensures LeanScalarToInt(host, 2 * payload + 1) == LeanScalarToInt64(host, 2 * payload + 1)
  {
    var word := 2 * payload + 1;
    Halves(payload);
    if host.Host32? { Wraps(Host32, word); }
    AsU32Of(LeanScalarToInt64(host, word));
  }

  /** Every `i64`, and every `i32`, becomes an `Int` denoting it, tagged exactly in the small
      range. */
  lemma IntWideningExactly(host: Host, n: int)
    requires -0x8000_0000_0000_0000 <= n < 0x8000_0000_0000_0000
    ensures var v := LeanInt64ToInt(host, n);
            && WellFormed(host, v) && IntOf(host, v) == n
            && (v.Tagged? <==> if host.Host64? then -0x8000_0000 <= n < 0x8000_0000 else -0x4000_0000 <= n < 0x4000_0000)
    ensures -0x8000_0000 <= n < 0x8000_0000 ==> LeanIntToInt(host, n) == LeanInt64ToInt(host, n)
  {
    if MinSmallInt(host) <= n <= MaxSmallInt(host) { SmallIntRoundTrip(host, n); }
  }

  /** Promoting any well-formed `Nat` keeps the number and never leaves a tagged word that
      would read as another one. */
  lemma NatToIntKeepsNumber(host: Host, a: Value)
    requires WellFormed(host, a)
    ensures var v := LeanNatToInt(host, a);
            WellFormed(host, v) && IntOf(host, v) == NatOf(a)
    ensures a.Tagged? ==>
              (LeanNatToInt(host, a).Tagged? <==> NatOf(a) < if host.Host64? then 0x8000_0000 else 0x4000_0000)
  {
    if a.Tagged? {
      var v := LeanUnbox(a.word);
      assert a.word == 2 * v + 1;
      if v <= MaxSmallInt(host) {
        if host.Host64? {
          assert v % U32_MODULUS == v;
        } else {
          assert a.word % U32_MODULUS == a.word;
        }
      }
    }
  }

  /** `u64` to `Nat` to `Int` denotes the original on both widths. */
  lemma Uint64ToIntDenotes(host: Host, n: u64)
    ensures IntOf(host, LeanNatToInt(host, LeanUint64ToNat(host, n))) == n
  {
    NatWideningExactly(host, n);
    NatToIntKeepsNumber(host, LeanUint64ToNat(host, n));
  }

  /** Narrowing to a byte after widening is reduction modulo 256, whichever form the number took. */
  lemma Uint8OfWidened(host: Host, n: u64)
    ensures LeanUint8OfNat(LeanUint64ToNat(host, n)) == n % 256
  {
    NatWideningExactly(host, n);
  }
}
