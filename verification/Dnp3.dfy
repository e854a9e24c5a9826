/** The bitwise CRC of the DNP3 data link layer (IEEE 1815, clause 9) and the probe built on it. */
module Dnp3 {

  /** One turn of the inner loop, as a branch on the low bit. */
  function Branching(r: bv16): bv16 { if r & 1 == 1 then (r >> 1) ^ 0xA6BC else r >> 1 }

  /** The same step with the low bit spread into a mask. */
  function Shift(r: bv16): bv16 { (r >> 1) ^ ((0 - (r & 1)) & 0xA6BC) }

  function Iterate<T>(f: T -> T, n: nat, x: T): T { if n == 0 then x else f(Iterate(f, n - 1, x)) }

  /** The register after one octet, which has already been mixed in. */
  function Shift8(r: bv16): bv16 { Iterate(Shift, 8, r) }

  function Xor(x: bv16, y: bv16): bv16 { x ^ y }

  function Mix(r: bv16, b: bv8): bv16 { Xor(r, b as bv16) }

  /** The register after `data`, starting from r. */
  function Register(r: bv16, data: seq<bv8>): bv16
    decreases |data|
  {
    if data == [] then r else Register(Shift8(Mix(r, data[0])), data[1..])
  }

  function CrcOf(data: seq<bv8>): bv16 { !Register(0, data) }

  lemma LowBit(r: bv16)
    ensures r & 1 == 0 || r & 1 == 1
    ensures r ^ 0 == r
  {
  }

  lemma BranchIsMask(r: bv16)
    ensures Branching(r) == Shift(r)
  {
    var bit := r & 1;
    LowBit(r);
    if bit == 1 {
      var mask: bv16 := 0 - bit;
      assert mask == 0xFFFF;
      assert mask & 0xA6BC == 0xA6BC;
    } else {
      LowBit(r >> 1);
    }
  }

  method Octet(start: bv16) returns (crc: bv16)
    ensures crc == Shift8(start)
  {
    crc := start;
    for n := 0 to 8
      invariant crc == Iterate(Shift, n, start)
    {
      BranchIsMask(crc);
      crc := Branching(crc);
    }
  }

  method Crc(data: seq<bv8>) returns (crc: bv16)
    ensures crc == CrcOf(data)
  {
    crc := 0;
    assert data[0..] == data;
    for k := 0 to |data|
      invariant Register(0, data) == Register(crc, data[k..])
    {
      assert data[k..][1..] == data[k + 1..];
      crc := Octet(Mix(crc, data[k]));
    }
    crc := !crc;
  }

  /** The two octets in the order they are sent. */
  function Trailer(crc: bv16): seq<bv8> { [(crc & 0xFF) as bv8, (crc >> 8) as bv8] }

  /** A Request Link Status header with its CRC. */
  function LinkStatus(): seq<bv8> {
    var header := [0x05, 0x64, 0x05, 0xC9, 0x00, 0x00, 0x00, 0x00];
    header + Trailer(CrcOf(header))
  }

  // ---------------------------------------------------------------------------
  // The bit step is linear and invertible
  // ---------------------------------------------------------------------------

  /** Eight steps written out. */
  function Shifted(r: bv16): bv16 { Shift(Shift(Shift(Shift(Shift(Shift(Shift(Shift(r)))))))) }

  lemma Shift8Unrolled(r: bv16)
    ensures Shift8(r) == Shifted(r)
  {
    assert Iterate(Shift, 4, r) == Shift(Iterate(Shift, 3, r));
    assert Iterate(Shift, 3, r) == Shift(Shift(Shift(r)));
    assert Iterate(Shift, 6, r) == Shift(Shift(Iterate(Shift, 4, r)));
  }

  lemma ShiftLinear(x: bv16, y: bv16)
    ensures Shift(Xor(x, y)) == Xor(Shift(x), Shift(y))
  {
  }

  lemma {:induction false} IterateAdditive<T>(f: T -> T, plus: (T, T) -> T, n: nat, x: T, y: T)
    requires forall k :: 0 <= k < n ==>
      f(plus(Iterate(f, k, x), Iterate(f, k, y))) == plus(f(Iterate(f, k, x)), f(Iterate(f, k, y)))
    ensures Iterate(f, n, plus(x, y)) == plus(Iterate(f, n, x), Iterate(f, n, y))
  {
    if n > 0 {
      IterateAdditive(f, plus, n - 1, x, y);
    }
  }

  /** Over GF(2), a whole octet of steps is a linear map. */
  lemma Shift8Linear(x: bv16, y: bv16)
    ensures Shift8(Xor(x, y)) == Xor(Shift8(x), Shift8(y))
  {
    forall k | 0 <= k < 8
      ensures Shift(Xor(Iterate(Shift, k, x), Iterate(Shift, k, y)))
           == Xor(Shift(Iterate(Shift, k, x)), Shift(Iterate(Shift, k, y)))
    {
      ShiftLinear(Iterate(Shift, k, x), Iterate(Shift, k, y));
    }
    IterateAdditive(Shift, Xor, 8, x, y);
  }

  lemma XorZero(x: bv16, y: bv16)
    ensures Xor(x, y) == 0 <==> x == y
  {
    if x == y {
      assert x ^ x == 0;
    }
    if x ^ y == 0 {
      assert (x ^ y) ^ y == x;
    }
  }

  lemma ShiftedInvertible(x: bv16)
    requires Shifted(x) == 0
    ensures x == 0
  {
  }

  lemma Shift8Injective(x: bv16, y: bv16)
    requires Shift8(x) == Shift8(y)
    ensures x == y
  {
    Shift8Linear(x, y);
    XorZero(Shift8(x), Shift8(y));
    Shift8Unrolled(Xor(x, y));
    ShiftedInvertible(Xor(x, y));
    XorZero(x, y);
  }

  lemma {:induction false} RegisterConcat(r: bv16, a: seq<bv8>, b: seq<bv8>)
    ensures Register(r, a + b) == Register(Register(r, a), b)
    decreases |a|
  {
    if a == [] {
      assert a + b == b;
    } else {
      assert (a + b)[0] == a[0] && (a + b)[1..] == a[1..] + b;
      RegisterConcat(Shift8(Mix(r, a[0])), a[1..], b);
    }
  }

  lemma MixInjective(x: bv16, y: bv16, b: bv8)
    requires Mix(x, b) == Mix(y, b)
    ensures x == y
  {
  }

  /** Different registers stay different over the same octets. */
  lemma {:induction false} RegisterInjective(x: bv16, y: bv16, data: seq<bv8>)
    requires Register(x, data) == Register(y, data)
    ensures x == y
    decreases |data|
  {
    if data != [] {
      RegisterInjective(Shift8(Mix(x, data[0])), Shift8(Mix(y, data[0])), data[1..]);
      Shift8Injective(Mix(x, data[0]), Mix(y, data[0]));
      MixInjective(x, y, data[0]);
    }
  }

  // ---------------------------------------------------------------------------
  // Residue
  // ---------------------------------------------------------------------------

  /** The register left by every message with its own CRC behind it. */
  const RESIDUE: bv16 := 0x66C5

  lemma ShiftedFacts(r: bv16)
    ensures Shifted(0xFF) == 0x1235 && Shifted(0x12CA) == 0x66C5
    ensures r & 0xFF == 0 ==> Shifted(r) == r >> 8
  {
  }

  lemma TrailerOctets(r: bv16)
    ensures Mix(r, Trailer(!r)[0]) == Xor(r & 0xFF00, 0xFF)
    ensures (r & 0xFF00) & 0xFF == 0
    ensures Mix(Xor((r & 0xFF00) >> 8, 0x1235), Trailer(!r)[1]) == 0x12CA
  {
  }

  lemma TrailerFirst(r: bv16)
    ensures Shift8(Mix(r, Trailer(!r)[0])) == Xor((r & 0xFF00) >> 8, 0x1235)
  {
    TrailerOctets(r);
    Shift8Linear(r & 0xFF00, 0xFF);
    Shift8Unrolled(r & 0xFF00);
    Shift8Unrolled(0xFF);
    ShiftedFacts(r & 0xFF00);
  }

  lemma RegisterPair(r: bv16, a: bv8, b: bv8)
    ensures Register(r, [a, b]) == Shift8(Mix(Shift8(Mix(r, a)), b))
  {
    var r1 := Shift8(Mix(r, a));
    assert [a, b][1..] == [b] && [b][1..] == [];
    assert Register(r, [a, b]) == Register(r1, [b]);
    assert Register(r1, [b]) == Register(Shift8(Mix(r1, b)), []);
  }

  /** Feeding a register the two octets of its own complement leaves the same residue always. */
  lemma TrailerResidue(r: bv16)
    ensures Register(r, Trailer(!r)) == RESIDUE
  {
    RegisterPair(r, Trailer(!r)[0], Trailer(!r)[1]);
    TrailerFirst(r);
    TrailerOctets(r);
    Shift8Unrolled(0x12CA);
    ShiftedFacts(0);
  }

  /** Appending the two CRC octets to any data leaves one fixed residue, whatever the data. */
  lemma AppendedCrcResidue(data: seq<bv8>)
    ensures CrcOf(data + Trailer(CrcOf(data))) == !RESIDUE
  {
    var r := Register(0, data);
    RegisterConcat(0, data, Trailer(!r));
    TrailerResidue(r);
  }

  // ---------------------------------------------------------------------------
  // Known values
  // ---------------------------------------------------------------------------

  lemma FeedOne(before: bv16, octet: bv8, rest: seq<bv8>, after: bv16)
    requires Shifted(Mix(before, octet)) == after
    ensures Register(before, [octet] + rest) == Register(after, rest)
  {
    Shift8Unrolled(Mix(before, octet));
    assert ([octet] + rest)[1..] == rest;
  }

  lemma CheckSteps()
    ensures Shifted(Mix(0x0000, 0x31)) == 0xAD9A
    ensures Shifted(Mix(0xAD9A, 0x32)) == 0x7037
    ensures Shifted(Mix(0x7037, 0x33)) == 0xD908
    ensures Shifted(Mix(0xD908, 0x34)) == 0xBDEC
    ensures Shifted(Mix(0xBDEC, 0x35)) == 0x8EE3
    ensures Shifted(Mix(0x8EE3, 0x36)) == 0xA821
    ensures Shifted(Mix(0xA821, 0x37)) == 0x0707
    ensures Shifted(Mix(0x0707, 0x38)) == 0xE7D0
    ensures Shifted(Mix(0xE7D0, 0x39)) == 0x157D
  {
  }

  /** The check value by which CRC-16/DNP is known: that of the nine digits in ASCII. */
  lemma CheckValue()
    ensures CrcOf([0x31, 0x32, 0x33, 0x34, 0x35, 0x36, 0x37, 0x38, 0x39]) == 0xEA82
  {
    CheckSteps();
    FeedOne(0x0000, 0x31, [0x32, 0x33, 0x34, 0x35, 0x36, 0x37, 0x38, 0x39], 0xAD9A);
    FeedOne(0xAD9A, 0x32, [0x33, 0x34, 0x35, 0x36, 0x37, 0x38, 0x39], 0x7037);
    FeedOne(0x7037, 0x33, [0x34, 0x35, 0x36, 0x37, 0x38, 0x39], 0xD908);
    FeedOne(0xD908, 0x34, [0x35, 0x36, 0x37, 0x38, 0x39], 0xBDEC);
    FeedOne(0xBDEC, 0x35, [0x36, 0x37, 0x38, 0x39], 0x8EE3);
    FeedOne(0x8EE3, 0x36, [0x37, 0x38, 0x39], 0xA821);
    FeedOne(0xA821, 0x37, [0x38, 0x39], 0x0707);
    FeedOne(0x0707, 0x38, [0x39], 0xE7D0);
    FeedOne(0xE7D0, 0x39, [], 0x157D);
  }

  lemma LinkStatusSteps()
    ensures Shifted(Mix(0x0000, 0x05)) == 0xEF26
    ensures Shifted(Mix(0xEF26, 0x64)) == 0x3F0D
    ensures Shifted(Mix(0x3F0D, 0x05)) == 0xFFB6
    ensures Shifted(Mix(0xFFB6, 0xC9)) == 0xB476
    ensures Shifted(Mix(0xB476, 0x00)) == 0x7DEA
    ensures Shifted(Mix(0x7DEA, 0x00)) == 0x4F05
    ensures Shifted(Mix(0x4F05, 0x00)) == 0xEF69
    ensures Shifted(Mix(0xEF69, 0x00)) == 0xB3C9
  {
  }

  /** The octets of the probe. */
  lemma LinkStatusOctets()
    ensures LinkStatus() == [0x05, 0x64, 0x05, 0xC9, 0x00, 0x00, 0x00, 0x00, 0x36, 0x4C]
  {
    LinkStatusSteps();
    FeedOne(0x0000, 0x05, [0x64, 0x05, 0xC9, 0x00, 0x00, 0x00, 0x00], 0xEF26);
    FeedOne(0xEF26, 0x64, [0x05, 0xC9, 0x00, 0x00, 0x00, 0x00], 0x3F0D);
    FeedOne(0x3F0D, 0x05, [0xC9, 0x00, 0x00, 0x00, 0x00], 0xFFB6);
    FeedOne(0xFFB6, 0xC9, [0x00, 0x00, 0x00, 0x00], 0xB476);
    FeedOne(0xB476, 0x00, [0x00, 0x00, 0x00], 0x7DEA);
    FeedOne(0x7DEA, 0x00, [0x00, 0x00], 0x4F05);
    FeedOne(0x4F05, 0x00, [0x00], 0xEF69);
    FeedOne(0xEF69, 0x00, [], 0xB3C9);
  }

  lemma LinkStatusValid()
    ensures CrcOf(LinkStatus()) == !RESIDUE
  {
    AppendedCrcResidue([0x05, 0x64, 0x05, 0xC9, 0x00, 0x00, 0x00, 0x00]);
  }

  // ---------------------------------------------------------------------------
  // Error detection
  // ---------------------------------------------------------------------------

  /** Bit k of an octet; the register takes octets from bit 0 up. */
  function Bit(k: nat): bv8
    requires k < 8
  {
    [1, 2, 4, 8, 16, 32, 64, 128][k]
  }

  /** The bits below bit j. */
  function Low(j: nat): bv8
    requires j < 8
  {
    [0, 1, 3, 7, 15, 31, 63, 127][j]
  }

  /** The octets agree in the bits of the mask. */
  predicate Agree(a: bv8, b: bv8, mask: bv8) { (a ^ b) & mask == 0 }

  /** The messages differ in bit q, counting through the octets in order. */
  predicate Differ(x: seq<bv8>, y: seq<bv8>, q: nat)
    requires |x| == |y| && q < 8 * |x|
  {
    !Agree(x[q / 8], y[q / 8], Bit(q % 8))
  }

  /** Every differing bit lies within 16 consecutive ones. */
  ghost predicate InBurst(x: seq<bv8>, y: seq<bv8>, first: nat)
    requires |x| == |y|
  {
    forall q: nat :: q < 8 * |x| && Differ(x, y, q) ==> first <= q < first + 16
  }

  lemma BitsBelow(a: bv8, b: bv8, j: nat)
    requires j < 8
    requires (j > 0 ==> Agree(a, b, 1)) && (j > 1 ==> Agree(a, b, 2)) && (j > 2 ==> Agree(a, b, 4)) && (j > 3 ==> Agree(a, b, 8))
    requires (j > 4 ==> Agree(a, b, 16)) && (j > 5 ==> Agree(a, b, 32)) && (j > 6 ==> Agree(a, b, 64))
    ensures Agree(a, b, Low(j))
  {
  }

  lemma BitsAbove(a: bv8, b: bv8, j: nat)
    requires j < 8
    requires (j <= 0 ==> Agree(a, b, 1)) && (j <= 1 ==> Agree(a, b, 2)) && (j <= 2 ==> Agree(a, b, 4)) && (j <= 3 ==> Agree(a, b, 8))
    requires (j <= 4 ==> Agree(a, b, 16)) && (j <= 5 ==> Agree(a, b, 32)) && (j <= 6 ==> Agree(a, b, 64)) && Agree(a, b, 128)
    ensures Agree(a, b, !Low(j))
  {
  }

  lemma LowAgree(a: bv8, b: bv8, j: nat)
    requires j < 8 && forall k: nat :: k < j ==> Agree(a, b, Bit(k))
    ensures Agree(a, b, Low(j))
  {
    assert Bit(0) == 1 && Bit(1) == 2 && Bit(2) == 4 && Bit(3) == 8 && Bit(4) == 16 && Bit(5) == 32 && Bit(6) == 64;
    BitsBelow(a, b, j);
  }

  lemma HighAgree(a: bv8, b: bv8, j: nat)
    requires j < 8 && forall k: nat :: j <= k < 8 ==> Agree(a, b, Bit(k))
    ensures Agree(a, b, !Low(j))
  {
    assert Bit(0) == 1 && Bit(1) == 2 && Bit(2) == 4 && Bit(3) == 8 && Bit(4) == 16 && Bit(5) == 32 && Bit(6) == 64 && Bit(7) == 128;
    BitsAbove(a, b, j);
  }

  lemma AgreeEverywhere(a: bv8, b: bv8)
    ensures Agree(a, b, !Low(0)) ==> a == b
    ensures a == b ==> forall mask :: Agree(a, b, mask)
  {
  }

  /** A burst that starts in its first octet above the low bits and ends in its third among them
      never cancels out of the register. */
  lemma BurstSpreads(a: bv16, b: bv16, c: bv16, low: bv16)
    requires a <= 0xFF && b <= 0xFF && low in {0, 1, 3, 7, 15, 31, 63, 127}
    requires a & low == 0 && c & !low == 0 && Shifted(Xor(Shifted(a), b)) == c
    ensures a == 0 && b == 0 && c == 0
  {
  }

  /** Where two octets differ, as a register. */
  function Wide(a: bv8, b: bv8): bv16 { (a ^ b) as bv16 }

  lemma XorAssociative(x: bv16, y: bv16, z: bv16)
    ensures Xor(Xor(x, y), z) == Xor(x, Xor(y, z))
  {
  }

  lemma XorCommutative(x: bv16, y: bv16)
    ensures Xor(x, y) == Xor(y, x)
  {
  }

  lemma XorSwap(u: bv16, v: bv16, p: bv16, q: bv16)
    ensures Xor(Xor(u, p), Xor(v, q)) == Xor(Xor(u, v), Xor(p, q))
  {
    XorAssociative(Xor(u, p), v, q);
    XorAssociative(u, p, v);
    XorCommutative(p, v);
    XorAssociative(u, v, p);
    XorAssociative(Xor(u, v), p, q);
  }

  lemma WideIsXor(a: bv8, b: bv8)
    ensures Wide(a, b) == Xor(a as bv16, b as bv16)
  {
  }

  lemma MixXor(u: bv16, v: bv16, a: bv8, b: bv8)
    ensures Xor(Mix(u, a), Mix(v, b)) == Xor(Xor(u, v), Wide(a, b))
  {
    XorSwap(u, v, a as bv16, b as bv16);
    WideIsXor(a, b);
  }

  lemma WideIs(a: bv8, b: bv8)
    ensures Wide(a, b) <= 0xFF
    ensures Wide(a, b) == 0 <==> a == b
  {
  }

  lemma WideMask(a: bv8, b: bv8, j: nat)
    requires j < 8
    ensures Low(j) as bv16 in {0, 1, 3, 7, 15, 31, 63, 127}
    ensures Agree(a, b, Low(j)) ==> Wide(a, b) & Low(j) as bv16 == 0
    ensures Agree(a, b, !Low(j)) ==> Wide(a, b) & !(Low(j) as bv16) == 0
  {
  }

  lemma XorSelf(r: bv16, e: bv16)
    ensures Xor(Xor(r, r), e) == e
  {
  }

  /** One octet more: the difference between two registers after it. */
  lemma DifferenceStep(u: bv16, v: bv16, a: bv8, b: bv8)
    ensures Xor(Shift8(Mix(u, a)), Shift8(Mix(v, b))) == Shift8(Xor(Xor(u, v), Wide(a, b)))
  {
    Shift8Linear(Mix(u, a), Mix(v, b));
    MixXor(u, v, a, b);
  }

  lemma BurstZero(e0: bv16, e1: bv16, e2: bv16, low: bv16)
    requires e0 <= 0xFF && e1 <= 0xFF && low in {0, 1, 3, 7, 15, 31, 63, 127}
    requires e0 & low == 0 && e2 & !low == 0 && Shift8(Xor(Shift8(e0), e1)) == e2
    ensures e0 == 0 && e1 == 0 && e2 == 0
  {
    Shift8Unrolled(e0);
    Shift8Unrolled(Xor(Shift8(e0), e1));
    BurstSpreads(e0, e1, e2, low);
  }

  lemma RegisterTriple(r: bv16, a: bv8, b: bv8, c: bv8)
    ensures Register(r, [a, b, c]) == Shift8(Mix(Shift8(Mix(Shift8(Mix(r, a)), b)), c))
  {
    var r1 := Shift8(Mix(r, a));
    assert [a, b, c][1..] == [b, c];
    RegisterPair(r1, b, c);
  }

  lemma LastOctet(u: bv16, v: bv16, a: bv8, b: bv8)
    requires Shift8(Mix(u, a)) == Shift8(Mix(v, b))
    ensures Xor(u, v) == Wide(a, b)
  {
    Shift8Injective(Mix(u, a), Mix(v, b));
    XorZero(Mix(u, a), Mix(v, b));
    MixXor(u, v, a, b);
    XorZero(Xor(u, v), Wide(a, b));
  }

  lemma TripleInjective(r: bv16, a0: bv8, a1: bv8, a2: bv8, b0: bv8, b1: bv8, b2: bv8, j: nat)
    requires Register(r, [a0, a1, a2]) == Register(r, [b0, b1, b2])
    requires j < 8 && Agree(a0, b0, Low(j)) && Agree(a2, b2, !Low(j))
    ensures a0 == b0 && a1 == b1 && a2 == b2
  {
    RegisterTriple(r, a0, a1, a2);
    RegisterTriple(r, b0, b1, b2);
    var u1, v1 := Shift8(Mix(r, a0)), Shift8(Mix(r, b0));
    var u2, v2 := Shift8(Mix(u1, a1)), Shift8(Mix(v1, b1));
    DifferenceStep(r, r, a0, b0);
    XorSelf(r, Wide(a0, b0));
    DifferenceStep(u1, v1, a1, b1);
    LastOctet(u2, v2, a2, b2);
    BurstOctets(a0, a1, a2, b0, b1, b2, j);
  }

  lemma BurstWide(a0: bv8, a2: bv8, b0: bv8, b2: bv8, e1: bv16, j: nat)
    requires j < 8 && Agree(a0, b0, Low(j)) && Agree(a2, b2, !Low(j)) && e1 <= 0xFF
    requires Shift8(Xor(Shift8(Wide(a0, b0)), e1)) == Wide(a2, b2)
    ensures Wide(a0, b0) == 0 && e1 == 0 && Wide(a2, b2) == 0
  {
    WideIs(a0, b0);
    WideMask(a0, b0, j);
    WideMask(a2, b2, j);
    BurstZero(Wide(a0, b0), e1, Wide(a2, b2), Low(j) as bv16);
  }

  lemma BurstOctets(a0: bv8, a1: bv8, a2: bv8, b0: bv8, b1: bv8, b2: bv8, j: nat)
    requires j < 8 && Agree(a0, b0, Low(j)) && Agree(a2, b2, !Low(j))
    requires Shift8(Xor(Shift8(Wide(a0, b0)), Wide(a1, b1))) == Wide(a2, b2)
    ensures a0 == b0 && a1 == b1 && a2 == b2
  {
    WideIs(a1, b1);
    BurstWide(a0, a2, b0, b2, Wide(a1, b1), j);
    WideIs(a0, b0);
    WideIs(a2, b2);
  }

  lemma ComplementInjective(x: bv16, y: bv16)
    requires !x == !y
    ensures x == y
  {
  }

  function Three(x: seq<bv8>, i: nat): seq<bv8>
    requires i + 3 <= |x|
  {
    [x[i], x[i + 1], x[i + 2]]
  }

  lemma WindowParts(x: seq<bv8>, i: nat)
    requires i + 3 <= |x|
    ensures x == x[..i] + (Three(x, i) + x[i + 3..])
  {
    assert x[i..i + 3] == Three(x, i);
    assert x[i..] == x[i..i + 3] + x[i + 3..];
  }

  lemma SplitWindow(x: seq<bv8>, i: nat)
    requires i + 3 <= |x|
    ensures Register(0, x) == Register(Register(Register(0, x[..i]), Three(x, i)), x[i + 3..])
  {
    WindowParts(x, i);
    RegisterConcat(0, x[..i], Three(x, i) + x[i + 3..]);
    RegisterConcat(Register(0, x[..i]), Three(x, i), x[i + 3..]);
  }

  /** Around three octets, with the same octets on both sides, a burst shows in the register. */
  lemma WindowRegisters(x: seq<bv8>, y: seq<bv8>, i: nat, j: nat)
    requires |x| == |y| && i + 3 <= |x| && x[..i] == y[..i] && x[i + 3..] == y[i + 3..]
    requires j < 8 && Agree(x[i], y[i], Low(j)) && Agree(x[i + 2], y[i + 2], !Low(j))
    requires Register(0, x) == Register(0, y)
    ensures x == y
  {
    SplitWindow(x, i);
    SplitWindow(y, i);
    WindowParts(x, i);
    WindowParts(y, i);
    var r := Register(0, x[..i]);
    RegisterInjective(Register(r, Three(x, i)), Register(r, Three(y, i)), x[i + 3..]);
    TripleInjective(r, x[i], x[i + 1], x[i + 2], y[i], y[i + 1], y[i + 2], j);
  }

  lemma BurstBit(x: seq<bv8>, y: seq<bv8>, first: nat, m: nat, k: nat)
    requires |x| == |y| && InBurst(x, y, first) && m < |x| && k < 8
    requires 8 * m + k < first || 8 * m + k >= first + 16
    ensures Agree(x[m], y[m], Bit(k))
  {
    var q := 8 * m + k;
    assert q / 8 == m && q % 8 == k;
    assert !Differ(x, y, q);
  }

  lemma BurstFirst(x: seq<bv8>, y: seq<bv8>, first: nat)
    requires |x| == |y| && InBurst(x, y, first) && first / 8 < |x|
    ensures Agree(x[first / 8], y[first / 8], Low(first % 8))
  {
    var m := first / 8;
    forall k: nat | k < first % 8 ensures Agree(x[m], y[m], Bit(k)) {
      BurstBit(x, y, first, m, k);
    }
    LowAgree(x[m], y[m], first % 8);
  }

  lemma BurstThird(x: seq<bv8>, y: seq<bv8>, first: nat)
    requires |x| == |y| && InBurst(x, y, first) && first / 8 + 2 < |x|
    ensures Agree(x[first / 8 + 2], y[first / 8 + 2], !Low(first % 8))
  {
    var m := first / 8 + 2;
    forall k: nat | first % 8 <= k < 8 ensures Agree(x[m], y[m], Bit(k)) {
      BurstBit(x, y, first, m, k);
    }
    HighAgree(x[m], y[m], first % 8);
  }

  lemma BurstOutside(x: seq<bv8>, y: seq<bv8>, first: nat, m: nat)
    requires |x| == |y| && InBurst(x, y, first) && m < |x| && (m < first / 8 || m > first / 8 + 2)
    ensures x[m] == y[m]
  {
    forall k: nat | 0 <= k < 8 ensures Agree(x[m], y[m], Bit(k)) {
      BurstBit(x, y, first, m, k);
    }
    HighAgree(x[m], y[m], 0);
    AgreeEverywhere(x[m], y[m]);
  }

  /** Followed by two equal octets, two messages have the window around the burst in full. */
  lemma BurstWindow(x: seq<bv8>, y: seq<bv8>, first: nat, tail: seq<bv8>)
    requires |x| == |y| && InBurst(x, y, first) && first / 8 < |x| && |tail| == 2
    ensures var p, q, i, j := x + tail, y + tail, first / 8, first % 8;
            && p[..i] == q[..i] && p[i + 3..] == q[i + 3..]
            && Agree(p[i], q[i], Low(j)) && Agree(p[i + 2], q[i + 2], !Low(j))
  {
    var i := first / 8;
    forall m | 0 <= m < |x| && (m < i || m > i + 2) ensures x[m] == y[m] {
      BurstOutside(x, y, first, m);
    }
    BurstFirst(x, y, first);
    if i + 2 < |x| {
      BurstThird(x, y, first);
    } else {
      AgreeEverywhere((x + tail)[i + 2], (y + tail)[i + 2]);
    }
  }

  lemma BurstRegisters(x: seq<bv8>, y: seq<bv8>, first: nat)
    requires |x| == |y| && InBurst(x, y, first) && first / 8 < |x| && Register(0, x) == Register(0, y)
    ensures x == y
  {
    var tail: seq<bv8> := [0, 0];
    BurstWindow(x, y, first, tail);
    RegisterConcat(0, x, tail);
    RegisterConcat(0, y, tail);
    WindowRegisters(x + tail, y + tail, first / 8, first % 8);
    assert x == (x + tail)[..|x|] && y == (y + tail)[..|y|];
  }

  lemma BurstPastEnd(x: seq<bv8>, y: seq<bv8>, first: nat)
    requires |x| == |y| && InBurst(x, y, first) && first / 8 >= |x|
    ensures x == y
  {
    forall m | 0 <= m < |x| ensures x[m] == y[m] {
      BurstOutside(x, y, first, m);
    }
  }

  /** Two different messages of the same length, however long or short, whose differing bits all lie
      within 16 consecutive ones, even spread over three octets, have different CRCs. */
  lemma BurstErrorsDetected(x: seq<bv8>, y: seq<bv8>, first: nat)
    requires |x| == |y| && x != y && InBurst(x, y, first)
    ensures CrcOf(x) != CrcOf(y)
  {
    var p, q := Register(0, x), Register(0, y);
    if !p == !q {
      ComplementInjective(p, q);
      if first / 8 < |x| {
        BurstRegisters(x, y, first);
      } else {
        BurstPastEnd(x, y, first);
      }
    }
  }

  /** So do messages that differ only within two adjacent octets, or in one. */
  lemma AdjacentErrorsDetected(x: seq<bv8>, y: seq<bv8>, i: nat)
    requires |x| == |y| && x != y && forall m :: 0 <= m < |x| && x[m] != y[m] ==> i <= m <= i + 1
    ensures CrcOf(x) != CrcOf(y)
  {
    forall q: nat | q < 8 * |x| && Differ(x, y, q) ensures 8 * i <= q < 8 * i + 16 {
      AgreeEverywhere(x[q / 8], y[q / 8]);
    }
    BurstErrorsDetected(x, y, 8 * i);
  }

  // ---------------------------------------------------------------------------
  // Superposition
  // ---------------------------------------------------------------------------

  /** z is x and y superposed, octet by octet. */
  predicate Superposed(x: seq<bv8>, y: seq<bv8>, z: seq<bv8>) {
    |x| == |y| == |z| && forall k :: 0 <= k < |z| ==> z[k] == x[k] ^ y[k]
  }

  lemma AdditiveStep(u: bv16, v: bv16, a: bv8, b: bv8, c: bv8)
    requires c == a ^ b
    ensures Shift8(Mix(Xor(u, v), c)) == Xor(Shift8(Mix(u, a)), Shift8(Mix(v, b)))
  {
    DifferenceStep(u, v, a, b);
  }

  lemma {:induction false} RegisterAdditive(u: bv16, v: bv16, x: seq<bv8>, y: seq<bv8>, z: seq<bv8>)
    requires Superposed(x, y, z)
    ensures Register(Xor(u, v), z) == Xor(Register(u, x), Register(v, y))
    decreases |x|
  {
    if x != [] {
      AdditiveStep(u, v, x[0], y[0], z[0]);
      RegisterAdditive(Shift8(Mix(u, x[0])), Shift8(Mix(v, y[0])), x[1..], y[1..], z[1..]);
    }
  }

  lemma FromZero(x: seq<bv8>, y: seq<bv8>, z: seq<bv8>, zero: bv16)
    requires Superposed(x, y, z) && zero == 0
    ensures Register(zero, z) == Register(zero, x) ^ Register(zero, y)
  {
    XorZero(zero, zero);
    RegisterAdditive(zero, zero, x, y, z);
  }

  lemma ComplementOfXor(p: bv16, q: bv16)
    ensures !(p ^ q) == !p ^ !q ^ 0xFFFF
  {
  }

  /** The CRC of two messages superposed is that of one superposed on that of the other, complemented: the
      register starts from zero. */
  lemma CrcAdditive(x: seq<bv8>, y: seq<bv8>, z: seq<bv8>)
    requires Superposed(x, y, z)
    ensures CrcOf(z) == CrcOf(x) ^ CrcOf(y) ^ 0xFFFF
  {
    FromZero(x, y, z, 0);
    ComplementOfXor(Register(0, x), Register(0, y));
  }
}
