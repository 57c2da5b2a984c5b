/** `to_le_bytes` / `to_be_bytes` and their inverses, for any width in bytes. */
module ByteOrder {
  import opened Prelude

  /** The number of values that fit in `width` bytes. */
  function Span(width: nat): (p: nat)
    ensures p > 0
  {
    if width == 0 then 1 else 256 * Span(width - 1)
  }

  lemma SpanOfWords()
    ensures Span(1) == 256 && Span(2) == 0x1_0000 && Span(4) == U32_MODULUS && Span(8) == U64_MODULUS
  {
    assert Span(3) == 0x100_0000;
    assert Span(6) == 0x1_0000_0000_0000;
  }

  function LittleEndian(n: nat, width: nat): (bs: Text)
    ensures |bs| == width
  {
    if width == 0 then [] else [n % 256] + LittleEndian(n / 256, width - 1)
  }

  function FromLittleEndian(bs: Text): nat {
    if bs == [] then 0 else bs[0] + 256 * FromLittleEndian(bs[1..])
  }

  function BigEndian(n: nat, width: nat): (bs: Text)
    ensures |bs| == width
  {
    if width == 0 then [] else BigEndian(n / 256, width - 1) + [n % 256]
  }

  function FromBigEndian(bs: Text): nat {
    if bs == [] then 0 else 256 * FromBigEndian(bs[..|bs| - 1]) + bs[|bs| - 1]
  }

  lemma ByteAndRest(b: byte, m: nat, width: nat)
    requires m < Span(width)
    ensures var n := 256 * m + b;
            n < Span(width + 1) && n % 256 == b && n / 256 == m
            && BigEndian(n, width + 1) == BigEndian(m, width) + [b]
            && LittleEndian(n, width + 1) == [b] + LittleEndian(m, width)
  {
  }

  lemma OneByteFewer(n: nat, width: nat)
    requires width > 0 && n < Span(width)
    ensures n / 256 < Span(width - 1) && n == 256 * (n / 256) + n % 256
  {
  }

  lemma BigEndianPush(bs: Text, b: byte)
    ensures FromBigEndian(bs + [b]) == 256 * FromBigEndian(bs) + b
  {
    assert (bs + [b])[..|bs|] == bs;
  }

  lemma LittleEndianCons(b: byte, bs: Text)
    ensures FromLittleEndian([b] + bs) == b + 256 * FromLittleEndian(bs)
  {
    assert ([b] + bs)[1..] == bs;
  }

  lemma OneByteMore(b: byte, m: nat, n: nat, width: nat)
    requires width > 0 && m < Span(width - 1) && n == 256 * m + b
    requires FromLittleEndian(LittleEndian(m, width - 1)) == m && FromBigEndian(BigEndian(m, width - 1)) == m
    ensures FromLittleEndian(LittleEndian(n, width)) == n && FromBigEndian(BigEndian(n, width)) == n
  {
    ByteAndRest(b, m, width - 1);
    LittleEndianCons(b, LittleEndian(m, width - 1));
    BigEndianPush(BigEndian(m, width - 1), b);
  }

  lemma {:induction false} RoundTrip(n: nat, width: nat)
    requires n < Span(width)
    ensures FromLittleEndian(LittleEndian(n, width)) == n && FromBigEndian(BigEndian(n, width)) == n
  {
    if width != 0 {
      OneByteFewer(n, width);
      RoundTrip(n / 256, width - 1);
      OneByteMore(n % 256, n / 256, n, width);
    }
  }

  lemma LittleEndianRoundTrip(n: nat, width: nat)
    requires n < Span(width)
    ensures FromLittleEndian(LittleEndian(n, width)) == n
  {
    RoundTrip(n, width);
  }

  lemma BigEndianRoundTrip(n: nat, width: nat)
    requires n < Span(width)
    ensures FromBigEndian(BigEndian(n, width)) == n
  {
    RoundTrip(n, width);
  }

  lemma {:induction false} BigEndianOfBytes(bs: Text)
    ensures FromBigEndian(bs) < Span(|bs|)
    ensures BigEndian(FromBigEndian(bs), |bs|) == bs
  {
    if bs != [] {
      var init, last := bs[..|bs| - 1], bs[|bs| - 1];
      BigEndianOfBytes(init);
      ByteAndRest(last, FromBigEndian(init), |init|);
      assert bs == init + [last];
    }
  }

  /** The bytes of a word are read as `n` exactly when they are the bytes of `n`. */
  lemma BigEndianExactly(bs: Text, n: nat)
    requires n < Span(|bs|)
    ensures FromBigEndian(bs) == n <==> bs == BigEndian(n, |bs|)
  {
    BigEndianOfBytes(bs);
    BigEndianRoundTrip(n, |bs|);
  }

  lemma {:induction false} LittleEndianOfBytes(bs: Text)
    ensures FromLittleEndian(bs) < Span(|bs|)
    ensures LittleEndian(FromLittleEndian(bs), |bs|) == bs
  {
    if bs != [] {
      var rest := bs[1..];
      LittleEndianOfBytes(rest);
      ByteAndRest(bs[0], FromLittleEndian(rest), |rest|);
      assert bs == [bs[0]] + rest;
    }
  }

  lemma LittleEndianInjective(m: nat, n: nat, width: nat)
    requires m < Span(width) && n < Span(width)
    requires LittleEndian(m, width) == LittleEndian(n, width)
    ensures m == n
  {
    LittleEndianRoundTrip(m, width);
    LittleEndianRoundTrip(n, width);
  }

  // ----- where each byte lies -----

  lemma DivideTwice(n: nat, a: nat, b: nat)
    requires a > 0 && b > 0
    ensures a * b > 0 && (n / a) / b == n / (a * b)
  {
    var q, r := n / a / b, n % a + a * (n / a % b);
    DivisionOf(n, a);
    DivisionOf(n / a, b);
    assert n == a * b * q + r by { Regroup(a, b, q, n / a % b, n % a); }
    RemainderFits(a, b, n % a, n / a % b);
    QuotientIs(n, a * b, q, r);
  }

  lemma DivisionOf(n: nat, a: nat)
    requires a > 0
    ensures n == a * (n / a) + n % a && n % a < a
  {
  }

  lemma Regroup(a: nat, b: nat, q: nat, s: nat, r: nat)
    ensures a * (b * q + s) + r == a * b * q + (r + a * s)
  {
  }

  lemma RemainderFits(a: nat, b: nat, r: nat, s: nat)
    requires r < a && s < b
    ensures 0 <= r + a * s < a * b
  {
    assert a * s <= a * (b - 1);
  }

  lemma QuotientIs(n: nat, d: nat, q: nat, r: nat)
    requires d > 0 && n == d * q + r && r < d
    ensures n / d == q
  {
    DivisionOf(n, d);
    var p := n / d;
    if p < q {
      AtLeastOneMore(d, p, q);
    } else if q < p {
      AtLeastOneMore(d, q, p);
    }
  }

  lemma AtLeastOneMore(d: nat, p: nat, q: nat)
    requires p < q
    ensures d * q >= d * p + d
  {
    MulAdds(d, p + 1, q - (p + 1));
    MulAdds(d, p, 1);
  }

  lemma MulAdds(a: nat, b: nat, c: nat)
    ensures a * (b + c) == a * b + a * c && a * c >= 0
  {
  }

  /** Little-endian: byte `i` is digit `i` to the base 256. */
  lemma {:induction false} LittleEndianDigits(n: nat, width: nat, i: nat)
    requires i < width
    ensures LittleEndian(n, width)[i] == n / Span(i) % 256
  {
    if i > 0 {
      LittleEndianDigits(n / 256, width - 1, i - 1);
      DivideTwice(n, 256, Span(i - 1));
    }
  }

  /** Big-endian: the digits the other way round. */
  lemma {:induction false} BigEndianDigits(n: nat, width: nat, i: nat)
    requires i < width
    ensures BigEndian(n, width)[i] == n / Span(width - 1 - i) % 256
  {
    if i < width - 1 {
      BigEndianDigits(n / 256, width - 1, i);
      DivideTwice(n, 256, Span(width - 2 - i));
    }
  }
}
