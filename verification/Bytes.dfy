/** Octets, fixed-width integers and the `struct` packing of them in either byte order. */
module Bytes {

  type byte = b: int | 0 <= b < 0x100
  type u16 = n: int | 0 <= n < 0x1_0000
  type u32 = n: int | 0 <= n < 0x1_0000_0000

  datatype Endian = Little | Big

  function Min(a: int, b: int): int { if a < b then a else b }

  /** `s[..n]` in Python: at most n octets, fewer when s is shorter. */
  function Take(s: seq<byte>, n: nat): seq<byte> { s[..Min(n, |s|)] }

  /** `s[a:]` in Python for a >= 0. */
  function Drop(s: seq<byte>, a: nat): seq<byte> { s[Min(a, |s|)..] }

  /** `s[a:b]` in Python for a, b >= 0. */
  function Slice(s: seq<byte>, a: nat, b: nat): seq<byte> {
    var hi := Min(b, |s|);
    if a <= hi then s[a..hi] else []
  }

  function U16(e: Endian, s: seq<byte>): u16
    requires |s| == 2
  {
    var a: int, b: int := s[0], s[1];
    if e.Little? then a + 0x100 * b else 0x100 * a + b
  }

  function U32(e: Endian, s: seq<byte>): u32
    requires |s| == 4
  {
    var a: int, b: int, c: int, d: int := s[0], s[1], s[2], s[3];
    if e.Little? then a + 0x100 * b + 0x1_0000 * c + 0x100_0000 * d
    else 0x100_0000 * a + 0x1_0000 * b + 0x100 * c + d
  }

  function Put16(e: Endian, n: u16): (s: seq<byte>)
    ensures |s| == 2
  {
    if e.Little? then [n % 0x100, n / 0x100] else [n / 0x100, n % 0x100]
  }

  function Put32(e: Endian, n: u32): (s: seq<byte>)
    ensures |s| == 4
  {
    var b0, b1, b2, b3 := n % 0x100, n / 0x100 % 0x100, n / 0x1_0000 % 0x100, n / 0x100_0000;
    if e.Little? then [b0, b1, b2, b3] else [b3, b2, b1, b0]
  }

  lemma Put16RoundTrip(e: Endian, n: u16)
    ensures U16(e, Put16(e, n)) == n
  {
  }

  lemma Put32RoundTrip(e: Endian, n: u32)
    ensures U32(e, Put32(e, n)) == n
  {
    assert n / 0x100 / 0x100 == n / 0x1_0000;
    assert n / 0x1_0000 / 0x100 == n / 0x100_0000;
  }

  function Zeros(n: nat): (s: seq<byte>)
    ensures |s| == n && forall k :: 0 <= k < n ==> s[k] == 0
  {
    seq(n, _ => 0)
  }
}
