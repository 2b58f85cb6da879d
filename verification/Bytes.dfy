/** Bytes as numbers, exclusive or, and big-endian integers. */
module Bytes {

  type byte = x: int | 0 <= x < 256

  datatype Option<+T> = None | Some(value: T)

  /** A guard for definitions that the verifier should open only on request. */
  ghost predicate Open(k: nat) {
    true
  }

  lemma Regroup<T>(a: seq<T>, b: seq<T>, c: seq<T>)
    ensures (a + b) + c == a + (b + c)
  {
  }

  function Min(a: nat, b: nat): nat {
    if a < b then a else b
  }

  /** How many bytes are missing to a multiple of four. */
  function Pad(len: nat): (p: nat)
    ensures p < 4
  {
    (4 - len % 4) % 4
  }

  lemma PadFills(len: nat)
    ensures (len + Pad(len)) % 4 == 0
  {
  }

  function Zeros(n: nat): (z: seq<byte>)
    ensures |z| == n && forall i | 0 <= i < n :: z[i] == 0
  {
    seq(n, _ => 0)
  }

  function Pow2(n: nat): (r: nat)
    ensures r > 0
  {
    if n == 0 then 1 else 2 * Pow2(n - 1)
  }

  /** Exclusive or of the lowest bits. */
  function Differ(a: nat, b: nat): nat {
    if a % 2 != b % 2 then 1 else 0
  }

  /** Exclusive or of the low `width` bits of two numbers. */
  function XorBits(a: nat, b: nat, width: nat): (r: nat)
    ensures r < Pow2(width)
    decreases width
  {
    if width == 0 then 0
    else Differ(a, b) + 2 * XorBits(a / 2, b / 2, width - 1)
  }

  function Xor(a: byte, b: byte): (r: byte) {
    assert Pow2(8) == 256;
    XorBits(a, b, 8)
  }

  lemma Pow2At16()
    ensures Pow2(16) == 0x1_0000
  {
    assert Pow2(8) == 256;
    assert Pow2(12) == 16 * Pow2(8);
  }

  type uint16 = x: int | 0 <= x < 0x1_0000

  function Xor16(a: uint16, b: uint16): (r: uint16) {
    Pow2At16();
    XorBits(a, b, 16)
  }

  lemma {:induction false} XorBitsTwice(a: nat, b: nat, width: nat)
    requires a < Pow2(width)
    ensures XorBits(XorBits(a, b, width), b, width) == a
  {
    if width > 0 {
      XorBitsTwice(a / 2, b / 2, width - 1);
      var x := XorBits(a, b, width);
      assert x / 2 == XorBits(a / 2, b / 2, width - 1);
    }
  }

  /** Masking twice with the same byte gives the byte back. */
  lemma XorTwice(a: byte, k: byte)
    ensures Xor(Xor(a, k), k) == a
  {
    assert Pow2(8) == 256;
    XorBitsTwice(a, k, 8);
  }

  lemma Xor16Twice(a: uint16, k: uint16)
    ensures Xor16(Xor16(a, k), k) == a
  {
    Pow2At16();
    XorBitsTwice(a, k, 16);
  }

  // ---- What exclusive or does to each bit.

  /** Bit `i` of a number, the lowest being bit 0. */
  function Bit(a: nat, i: nat): (b: nat) {
    a / Pow2(i) % 2
  }

  lemma {:induction false} Larger(d: nat, q: nat, r: nat)
    requires q < r
    ensures q * d + d <= r * d
    decreases r
  {
    assert (r - 1) * d + d == r * d;
    if q < r - 1 {
      Larger(d, q, r - 1);
    }
  }

  /** There is only one quotient. */
  lemma QuotientIs(x: nat, d: nat, q: nat, r: nat, u: nat, w: nat)
    requires x == q * d + u == r * d + w && u < d && w < d
    ensures q == r
  {
    if q < r {
      Larger(d, q, r);
    }
    if r < q {
      Larger(d, r, q);
    }
  }

  lemma Remainder(a: nat, m: nat, w: nat, u: nat)
    requires w < m && u < a
    ensures a * w + u < a * m
  {
    Larger(a, w, m);
  }

  lemma Distribute(a: nat, m: nat, q: nat, w: nat)
    ensures (m * q + w) * a == q * (a * m) + a * w
  {
    assert (m * q + w) * a == (m * q) * a + w * a;
    assert (m * q) * a == q * (a * m);
  }

  lemma Divided(x: nat, d: nat)
    requires d > 0
    ensures x == (x / d) * d + x % d && x % d < d
  {
  }

  /** Dividing twice is dividing by the product. */
  lemma DivideTwice(x: nat, a: nat, m: nat)
    requires a > 0 && m > 0
    ensures a * m > 0 && x / (a * m) == x / a / m
  {
    Divided(x, a);
    Divided(x / a, m);
    var q, w, u := x / a / m, x / a % m, x % a;
    Remainder(a, m, w, u);
    Distribute(a, m, q, w);
    Divided(x, a * m);
    QuotientIs(x, a * m, q, x / (a * m), a * w + u, x % (a * m));
  }

  lemma HigherBit(a: nat, i: nat)
    requires i > 0
    ensures Bit(a, i) == Bit(a / 2, i - 1)
  {
    DivideTwice(a, 2, Pow2(i - 1));
  }

  /** A bit of the exclusive or is set exactly when the two numbers differ in it. */
  lemma {:induction false} XorBitsAt(a: nat, b: nat, width: nat, i: nat)
    requires i < width
    ensures Bit(XorBits(a, b, width), i) == 1 <==> Bit(a, i) != Bit(b, i)
    decreases width
  {
    var x := XorBits(a, b, width);
    if i == 0 {
      assert Bit(x, 0) == x % 2 && Bit(a, 0) == a % 2 && Bit(b, 0) == b % 2;
    } else {
      assert x / 2 == XorBits(a / 2, b / 2, width - 1);
      XorBitsAt(a / 2, b / 2, width - 1, i - 1);
      HigherBit(x, i);
      HigherBit(a, i);
      HigherBit(b, i);
    }
  }

  lemma XorAt(a: byte, b: byte, i: nat)
    requires i < 8
    ensures Bit(Xor(a, b), i) == 1 <==> Bit(a, i) != Bit(b, i)
  {
    XorBitsAt(a, b, 8, i);
  }

  lemma Xor16At(a: uint16, b: uint16, i: nat)
    requires i < 16
    ensures Bit(Xor16(a, b), i) == 1 <==> Bit(a, i) != Bit(b, i)
  {
    XorBitsAt(a, b, 16, i);
  }

  lemma {:induction false} XorBitsZero(a: nat, width: nat)
    requires a < Pow2(width)
    ensures XorBits(a, 0, width) == a
    decreases width
  {
    if width > 0 {
      XorBitsZero(a / 2, width - 1);
    }
  }

  /** A keystream byte of zero leaves the byte as it is. */
  lemma XorZero(a: byte)
    ensures Xor(a, 0) == a
  {
    assert Pow2(8) == 256;
    XorBitsZero(a, 8);
  }

  lemma Halved(a: nat, h: nat, p: nat, l: nat)
    requires a == h * (2 * p) + l
    ensures a / 2 == h * p + l / 2 && a % 2 == l % 2
  {
    assert h * (2 * p) == 2 * (h * p);
  }

  lemma Doubled(d: nat, x: nat, p: nat, y: nat)
    ensures d + 2 * (x * p + y) == x * (2 * p) + (d + 2 * y)
  {
  }

  lemma XorBitsStep(a: nat, b: nat, width: nat, rest: nat)
    requires rest == XorBits(a / 2, b / 2, width)
    ensures XorBits(a, b, width + 1) == Differ(a, b) + 2 * rest
  {
  }

  /** The high and the low part of two numbers do not meet. */
  lemma {:induction false} XorBitsSplit(a: nat, b: nat, h: nat, l: nat, g: nat, m: nat, low: nat, high: nat, p: nat)
    requires p == Pow2(low) && a == h * p + l && b == g * p + m && l < p && m < p
    ensures XorBits(a, b, low + high) == XorBits(h, g, high) * p + XorBits(l, m, low)
    decreases low
  {
    if low == 0 {
      assert a == h && b == g;
    } else {
      var q := Pow2(low - 1);
      assert p == 2 * q;
      Halved(a, h, q, l);
      Halved(b, g, q, m);
      XorBitsSplit(a / 2, b / 2, h, l / 2, g, m / 2, low - 1, high, q);
      JoinHalves(a, b, l, m, low - 1, high, q, XorBits(h, g, high));
    }
  }

  lemma JoinHalves(a: nat, b: nat, l: nat, m: nat, low: nat, high: nat, q: nat, x: nat)
    requires a % 2 == l % 2 && b % 2 == m % 2
    requires XorBits(a / 2, b / 2, low + high) == x * q + XorBits(l / 2, m / 2, low)
    ensures XorBits(a, b, low + 1 + high) == x * (2 * q) + XorBits(l, m, low + 1)
  {
    var y := XorBits(l / 2, m / 2, low);
    XorBitsStep(a, b, low + high, x * q + y);
    XorBitsStep(l, m, low, y);
    Doubled(Differ(l, m), x, q, y);
  }

  /** Sixteen bits are masked byte by byte. */
  lemma Xor16Bytes(a: uint16, b: uint16)
    ensures Xor16(a, b) == 256 * Xor(a / 256, b / 256) + Xor(a % 256, b % 256)
  {
    assert Pow2(8) == 256;
    var h, l, g, m := a / 256, a % 256, b / 256, b % 256;
    XorBitsSplit(a, b, h, l, g, m, 8, 8, 256);
  }

  /** Sixteen bytes. */
  type Block = s: seq<byte> | |s| == 16 witness seq(16, _ => 0)

  function XorSeq(data: seq<byte>, ks: seq<byte>): (r: seq<byte>)
    requires |data| <= |ks|
    ensures |r| == |data|
  {
    seq(|data|, i requires 0 <= i < |data| => Xor(data[i], ks[i]))
  }

  lemma XorSeqSnoc(data: seq<byte>, b: byte, ks: seq<byte>)
    requires |data| < |ks|
    ensures XorSeq(data + [b], ks) == XorSeq(data, ks) + [Xor(b, ks[|data|])]
  {
  }

  lemma XorSeqTwice(data: seq<byte>, ks: seq<byte>)
    requires |data| <= |ks|
    ensures XorSeq(XorSeq(data, ks), ks) == data
  {
    forall i | 0 <= i < |data|
      ensures XorSeq(XorSeq(data, ks), ks)[i] == data[i]
    {
      XorTwice(data[i], ks[i]);
    }
  }

  function Pow256(n: nat): (r: nat)
    ensures r > 0
  {
    if n == 0 then 1 else 256 * Pow256(n - 1)
  }

  /** The `width` low bytes of `v`, most significant first (`to_be_bytes`). */
  function ToBe(v: nat, width: nat): (s: seq<byte>)
    ensures |s| == width
    decreases width
  {
    if width == 0 then [] else ToBe(v / 256, width - 1) + [v % 256]
  }

  /** The unsigned value of a big-endian byte string (`from_be_bytes`). */
  function FromBe(s: seq<byte>): (v: nat)
    ensures v < Pow256(|s|)
  {
    if s == [] then 0 else 256 * FromBe(s[..|s| - 1]) + s[|s| - 1]
  }

  lemma {:induction false} FromBeToBe(v: nat, width: nat)
    requires v < Pow256(width)
    ensures FromBe(ToBe(v, width)) == v
    decreases width
  {
    if width > 0 {
      FromBeToBe(v / 256, width - 1);
      assert ToBe(v, width)[..width - 1] == ToBe(v / 256, width - 1);
    }
  }

  lemma {:induction false} ToBeFromBe(s: seq<byte>)
    ensures ToBe(FromBe(s), |s|) == s
  {
    if s != [] {
      var front := s[..|s| - 1];
      ToBeFromBe(front);
      assert FromBe(s) / 256 == FromBe(front) && FromBe(s) % 256 == s[|s| - 1];
    }
  }

  /** The most significant byte comes first. */
  lemma {:induction false} ToBeAt(v: nat, width: nat, i: nat)
    requires i < width
    ensures ToBe(v, width)[i] == v / Pow256(width - 1 - i) % 256
    decreases width
  {
    if i < width - 1 {
      ToBeAt(v / 256, width - 1, i);
      DivideTwice(v, 256, Pow256(width - 2 - i));
    }
  }

  lemma Scale(a: nat, p: nat, b: nat, x: nat)
    ensures 256 * (a * p + b) + x == a * (256 * p) + (256 * b + x)
  {
  }

  /** Bytes in front count for more, by the number of those that follow. */
  lemma {:induction false} FromBeAppend(a: seq<byte>, b: seq<byte>)
    ensures FromBe(a + b) == FromBe(a) * Pow256(|b|) + FromBe(b)
    decreases |b|
  {
    if b == [] {
      assert a + b == a;
    } else {
      var front, last := b[..|b| - 1], b[|b| - 1];
      FromBeAppend(a, front);
      assert (a + b)[..|a + b| - 1] == a + front;
      Scale(FromBe(a), Pow256(|front|), FromBe(front), last);
    }
  }

  lemma FromBeOne(x: byte)
    ensures FromBe([x]) == x
  {
    assert [x][..0] == [];
    assert FromBe([x]) == 256 * FromBe([]) + x;
  }

  lemma ByteParts(v: nat, h: byte, l: byte)
    requires v == 256 * h + l
    ensures v / 256 == h && v % 256 == l
  {
    Divided(v, 256);
    QuotientIs(v, 256, h, v / 256, l, v % 256);
  }

  /** `i64::from_be_bytes`: two's complement. */
  function I64FromBe(s: seq<byte>): (v: int)
    requires |s| == 8
  {
    var u := FromBe(s);
    if u < 0x8000_0000_0000_0000 then u else u - 0x1_0000_0000_0000_0000
  }

  /** The number with the same low 64 bits that a signed 64-bit integer can hold. */
  lemma I64Is(s: seq<byte>)
    requires |s| == 8
    ensures -0x8000_0000_0000_0000 <= I64FromBe(s) < 0x8000_0000_0000_0000
    ensures I64FromBe(s) == FromBe(s) || I64FromBe(s) == FromBe(s) - 0x1_0000_0000_0000_0000
  {
    assert Pow256(4) == 0x1_0000_0000;
    assert Pow256(8) == 0x1_0000 * 0x1_0000 * Pow256(4);
  }

  function U16FromBe(hi: byte, lo: byte): (v: uint16) {
    256 * hi + lo
  }
}
