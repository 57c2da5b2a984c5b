/** Bitwise `and` on machine words, and what the two masks used by the object layout do. */
module BitMasks {
  import opened Prelude

  function Pow2(k: nat): (p: nat)
    ensures p > 0
  {
    if k == 0 then 1 else 2 * Pow2(k - 1)
  }

  function BitAnd(x: nat, y: nat): nat {
    if x == 0 || y == 0 then 0 else 2 * BitAnd(x / 2, y / 2) + (x % 2) * (y % 2)
  }

  /** `!mask` on a word of `bits` bits. */
  function Complement(mask: nat, bits: nat): nat
    requires mask < Pow2(bits)
  {
    Pow2(bits) - 1 - mask
  }

  lemma PowersOfWords()
    ensures Pow2(3) == 8 && Pow2(7) == 128 && Pow2(8) == 256
    ensures Pow2(32) == U32_MODULUS && Pow2(64) == U64_MODULUS
  {
    assert Pow2(5) == 32;
    assert Pow2(10) == 1024;
    assert Pow2(13) == 8192;
    assert Pow2(16) == 0x1_0000;
    PowAdds(16, 16);
    PowAdds(32, 32);
  }

  lemma {:induction false} PowAdds(j: nat, k: nat)
    ensures Pow2(j + k) == Pow2(j) * Pow2(k)
  {
    if j > 0 {
      PowAdds(j - 1, k);
      assert Pow2(j + k) == 2 * (Pow2(j - 1) * Pow2(k));
    }
  }

  /** The number the low `k` bits of `x` spell. */
  function LowBits(x: nat, k: nat): nat {
    if k == 0 then 0 else 2 * LowBits(x / 2, k - 1) + x % 2
  }

  function HighBits(x: nat, k: nat): nat {
    if k == 0 then x else HighBits(x / 2, k - 1)
  }

  /** `h` shifted left by `k` bits. */
  function Shifted(h: nat, k: nat): nat {
    if k == 0 then h else 2 * Shifted(h, k - 1)
  }

  lemma {:induction false} ShiftedIsTimes(h: nat, k: nat)
    ensures Shifted(h, k) == h * Pow2(k)
  {
    if k > 0 {
      ShiftedIsTimes(h, k - 1);
      TimesTwice(h, Pow2(k - 1));
    }
  }

  lemma TimesTwice(h: nat, p: nat)
    ensures h * (2 * p) == 2 * (h * p)
  {
  }

  lemma {:induction false} BitsSplit(x: nat, k: nat)
    ensures x == Shifted(HighBits(x, k), k) + LowBits(x, k) && LowBits(x, k) < Pow2(k)
  {
    if k > 0 {
      BitsSplit(x / 2, k - 1);
      SplitOneMore(x, Shifted(HighBits(x / 2, k - 1), k - 1), LowBits(x / 2, k - 1));
    }
  }

  lemma SplitOneMore(x: nat, high: nat, low: nat)
    requires x / 2 == high + low
    ensures x == 2 * high + (2 * low + x % 2)
  {
  }

  lemma AtLeastOneTimes(m: int, d: int)
    requires m >= 1 && d > 0
    ensures m * d >= d
  {
  }

  lemma RemainderIs(x: nat, d: nat, q: nat, r: nat)
    requires d > 0 && x == q * d + r && r < d
    ensures x % d == r
  {
    var q', r' := x / d, x % d;
    assert x == d * q' + r';
    assert (q - q') * d == r' - r;
    if q > q' {
      AtLeastOneTimes(q - q', d);
    } else if q < q' {
      AtLeastOneTimes(q' - q, d);
    }
  }

  lemma LowBitsAreRemainder(x: nat, k: nat)
    ensures LowBits(x, k) == x % Pow2(k)
  {
    BitsSplit(x, k);
    ShiftedIsTimes(HighBits(x, k), k);
    RemainderIs(x, Pow2(k), HighBits(x, k), LowBits(x, k));
  }

  lemma {:induction false} LowBitsOfSmall(x: nat, k: nat)
    requires x < Pow2(k)
    ensures LowBits(x, k) == x
  {
    if k > 0 { LowBitsOfSmall(x / 2, k - 1); }
  }

  lemma {:induction false} LowBitsOfZero(k: nat)
    ensures LowBits(0, k) == 0
  {
    if k > 0 { LowBitsOfZero(k - 1); }
  }

  /** An even mask drops the last bit. */
  lemma AndEven(x: nat, mask: nat, half: nat)
    requires mask == 2 * half
    ensures BitAnd(x, mask) == 2 * BitAnd(x / 2, half)
  {
    assert mask / 2 == half && mask % 2 == 0;
  }

  /** An odd one keeps it. */
  lemma AndOdd(x: nat, mask: nat, half: nat)
    requires mask == 2 * half + 1
    ensures BitAnd(x, mask) == 2 * BitAnd(x / 2, half) + x % 2
  {
    assert mask / 2 == half && mask % 2 == 1;
  }

  /** Masking with the low `k` bits set keeps those bits. */
  lemma {:induction false} AndKeepsLowBits(x: nat, k: nat)
    ensures BitAnd(x, Pow2(k) - 1) == LowBits(x, k)
  {
    if x == 0 {
      LowBitsOfZero(k);
    } else if k > 0 {
      var half, mask := Pow2(k - 1) - 1, Pow2(k) - 1;
      AndKeepsLowBits(x / 2, k - 1);
      AndOdd(x, mask, half);
    }
  }

  /** Masking with all but the low `k` bits of a word clears those bits. */
  lemma {:induction false} AndClearsLowBits(x: nat, k: nat, bits: nat)
    requires k <= bits && x < Pow2(bits)
    ensures Pow2(k) <= Pow2(bits)
    ensures BitAnd(x, Pow2(bits) - Pow2(k)) == x - LowBits(x, k)
  {
    PowGrows(k, bits);
    if k == 0 {
      AndKeepsLowBits(x, bits);
      LowBitsOfSmall(x, bits);
    } else if x == 0 {
      LowBitsOfZero(k);
    } else {
      AndClearsLowBits(x / 2, k - 1, bits - 1);
      AndEven(x, Pow2(bits) - Pow2(k), Pow2(bits - 1) - Pow2(k - 1));
    }
  }

  lemma {:induction false} PowGrows(j: nat, k: nat)
    requires j <= k
    ensures Pow2(j) <= Pow2(k)
  {
    if j < k { PowGrows(j, k - 1); }
  }
}
