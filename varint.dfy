/** The multiformats unsigned varint: unsigned LEB128, seven bits per byte, least significant
    group first, the high bit set on every byte but the last. */
module Varint {
  import opened Bytes
  import opened Wrappers

  /** The encoding written by the `varint` package's `encode`. It is minimal: when it is longer
      than one byte, its last byte is not zero. */
  function Encode(n: nat): (r: seq<byte>)
    ensures 1 <= |r|
    ensures r[|r| - 1] < 128
    ensures forall i :: 0 <= i < |r| - 1 ==> r[i] >= 128
    ensures |r| == 1 || r[|r| - 1] != 0
  {
    if n < 128 then [n] else [n % 128 + 128] + Encode(n / 128)
  }

  /** Reads one varint from the front of s: its value and how many bytes it took. */
  function Decode(s: seq<byte>): (r: Option<(nat, nat)>)
    ensures r.Some? ==> 1 <= r.value.1 <= |s|
  {
    if s == [] then None
    else if s[0] < 128 then Some((s[0], 1))
    else match Decode(s[1..])
      case None => None
      case Some((v, k)) => Some(((s[0] - 128) + 128 * v, k + 1))
  }

  /** A varint followed by anything decodes to its value and stops exactly at its own end. */
  lemma {:induction false} DecodeEncode(n: nat, rest: seq<byte>)
    ensures Decode(Encode(n) + rest) == Some((n, |Encode(n)|))
  {
    var s := Encode(n) + rest;
    if n >= 128 {
      assert s[1..] == Encode(n / 128) + rest;
      DecodeEncode(n / 128, rest);
    }
  }
}
