/** Bytes and fixed-width little-endian integers, as a JavaScript `DataView` writes them. */
module Bytes {

  /** One element of a `Uint8Array`. */
  type byte = x: int | 0 <= x < 256

  /** 256 to the power n. */
  function Pow256(n: nat): (r: nat)
    ensures r >= 1
  {
    if n == 0 then 1 else 256 * Pow256(n - 1)
  }

  /** 2^64, the first value a u64 field cannot hold. */
  const U64_LIMIT: nat := 0x1_0000_0000_0000_0000

  lemma Pow256Eight()
    ensures Pow256(8) == U64_LIMIT
  {
    assert Pow256(2) == 0x1_0000;
    assert Pow256(4) == 0x1_0000_0000;
    assert Pow256(6) == 0x1_0000_0000_0000;
  }

  /** The `width` low-order bytes of v, least significant first. Bytes above `width` are dropped,
      which is how `DataView.setBigUint64` reduces its argument modulo 2^64. */
  function LittleEndian(v: nat, width: nat): (r: seq<byte>)
    ensures |r| == width
  {
    if width == 0 then [] else [v % 256] + LittleEndian(v / 256, width - 1)
  }

  /** The value of a little-endian byte string. */
  function FromLittleEndian(s: seq<byte>): (v: nat)
    ensures v < Pow256(|s|)
  {
    if s == [] then 0 else s[0] + 256 * FromLittleEndian(s[1..])
  }

  /** Writing a value on `width` bytes and reading it back gives the value modulo 256^width. */
  lemma {:induction false} LittleEndianRoundTrip(v: nat, width: nat)
    ensures FromLittleEndian(LittleEndian(v, width)) == v % Pow256(width)
  {
    if width > 0 {
      var s := LittleEndian(v, width);
      assert s[1..] == LittleEndian(v / 256, width - 1);
      LittleEndianRoundTrip(v / 256, width - 1);
      var p := Pow256(width - 1);
      var q := v / 256;
      ModSplit(v, q, p);
    }
  }

  /** v mod 256p splits into its low byte and the next p-digit of v / 256. */
  lemma ModSplit(v: nat, q: nat, p: nat)
    requires p >= 1 && q == v / 256
    ensures v % (256 * p) == v % 256 + 256 * (q % p)
  {
    var a := q / p;
    var b := q % p;
    assert q == p * a + b;
    assert v == 256 * q + v % 256;
    assert v == (256 * p) * a + (256 * b + v % 256);
    assert 0 <= 256 * b + v % 256 < 256 * p;
    ModUnique(v, 256 * p, a, 256 * b + v % 256);
  }

  /** The remainder is the unique c with v == m * a + c and 0 <= c < m. */
  lemma ModUnique(v: nat, m: nat, a: nat, c: nat)
    requires m >= 1 && v == m * a + c && c < m
    ensures v % m == c
  {
    var a' := v / m;
    var c' := v % m;
    assert v == m * a' + c';
    if a' < a {
      var d := a - a';
      assert m * a == m * a' + m * d;
      MulAtLeast(m, d);
    } else if a' > a {
      var d := a' - a;
      assert m * a' == m * a + m * d;
      MulAtLeast(m, d);
    }
  }

  lemma MulAtLeast(m: nat, d: nat)
    requires d >= 1
    ensures m * d >= m
  {
    assert m * d == m + m * (d - 1);
  }

  /** A value below 256^width survives the round trip unchanged. */
  lemma LittleEndianExact(v: nat, width: nat)
    requires v < Pow256(width)
    ensures FromLittleEndian(LittleEndian(v, width)) == v
  {
    LittleEndianRoundTrip(v, width);
  }
}
