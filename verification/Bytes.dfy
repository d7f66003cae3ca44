/** Fixed-width integers in byte buffers, as `encoding/binary` writes and reads them. */
module Bytes {

  type Byte = x: int | 0 <= x < 256

  const TWO32: int := 0x1_0000_0000
  const TWO63: int := 0x8000_0000_0000_0000
  const TWO64: int := 0x1_0000_0000_0000_0000

  type Int64 = x: int | -TWO63 <= x < TWO63

  /** The conversion uint64(x) of a signed 64-bit integer, and back. */
  function ToUnsigned(x: Int64): (r: nat)
    ensures r < TWO64
  {
    if x < 0 then x + TWO64 else x
  }

  function ToSigned(u: nat): (r: Int64)
    requires u < TWO64
    ensures ToUnsigned(r) == u
  {
    if u < TWO63 then u else u - TWO64
  }

  function Pow256(n: nat): (r: nat)
    ensures r > 0
  {
    if n == 0 then 1 else 256 * Pow256(n - 1)
  }

  lemma Pow256Values()
    ensures Pow256(4) == TWO32 && Pow256(8) == TWO64
  {
    assert Pow256(2) == 65536;
    assert Pow256(4) == 65536 * 65536;
    assert Pow256(6) == 65536 * 65536 * 65536;
  }

  /** The low `n` bytes of `v`, least significant first. */
  function LittleEndian(v: nat, n: nat): (r: seq<Byte>)
    ensures |r| == n
    decreases n
  {
    if n == 0 then [] else [v % 256] + LittleEndian(v / 256, n - 1)
  }

  function LittleEndianValue(b: seq<Byte>): (r: nat) {
    if b == [] then 0 else b[0] + 256 * LittleEndianValue(b[1..])
  }

  lemma {:induction false} LittleEndianRoundTrip(v: nat, n: nat)
    requires v < Pow256(n)
    ensures LittleEndianValue(LittleEndian(v, n)) == v
    decreases n
  {
    if n > 0 {
      LittleEndianRoundTrip(v / 256, n - 1);
      assert LittleEndian(v, n)[1..] == LittleEndian(v / 256, n - 1);
    }
  }

  lemma {:induction false} LittleEndianBound(b: seq<Byte>)
    ensures LittleEndianValue(b) < Pow256(|b|)
  {
    if b != [] {
      LittleEndianBound(b[1..]);
    }
  }

  lemma {:induction false} LittleEndianReadBack(b: seq<Byte>)
    ensures LittleEndian(LittleEndianValue(b), |b|) == b
  {
    if b != [] {
      LittleEndianReadBack(b[1..]);
      assert b == [b[0]] + b[1..];
    }
  }

  /** Byte `i` carries the value's digit of weight 256^i. */
  lemma {:induction false} LittleEndianByte(v: nat, n: nat, i: nat)
    requires i < n
    ensures LittleEndian(v, n)[i] == (v / Pow256(i)) % 256
    decreases n
  {
    if i > 0 {
      LittleEndianByte(v / 256, n - 1, i - 1);
      DivideTwice(v, Pow256(i - 1));
    }
  }

  lemma DivideTwice(v: nat, d: nat)
    requires d > 0
    ensures v / (256 * d) == (v / 256) / d
  {
    var q, r := v / 256, v % 256;
    var a, b := q / d, q % d;
    assert q == d * a + b;
    assert v == 256 * (d * a + b) + r;
    assert 256 * (d * a) == (256 * d) * a;
    assert v == (256 * d) * a + (256 * b + r);
    assert 0 <= 256 * b + r < 256 * d;
    QuotientIs(v, 256 * d, a, 256 * b + r);
  }

  lemma QuotientIs(v: nat, d: nat, a: nat, r: nat)
    requires d > 0 && v == d * a + r && r < d
    ensures v / d == a
  {
    var q, m := v / d, v % d;
    assert v == d * q + m;
    AtMost(d, a, r, q, m);
    AtMost(d, q, m, a, r);
  }

  lemma AtMost(d: nat, a: nat, r: nat, q: nat, m: nat)
    requires d * a + r == d * q + m && m < d
    ensures a <= q
  {
    if q < a {
      TimesMonotone(d, q + 1, a);
    }
  }

  lemma TimesMonotone(d: nat, x: nat, y: nat)
    requires x <= y
    ensures d * x <= d * y
  {
    assert d * y == d * x + d * (y - x);
  }
}
