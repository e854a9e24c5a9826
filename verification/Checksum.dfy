/** The Internet checksum of RFC 1071 and what filling it in achieves. */
module Checksum {
  import opened Bytes

  /** An odd last octet is padded with a zero. */
  function Even(data: seq<byte>): (s: seq<byte>)
    ensures |s| % 2 == 0
  {
    if |data| % 2 == 1 then data + [0] else data
  }

  /** The sum of the big-endian 16-bit words. */
  function WordSum(s: seq<byte>): nat
    requires |s| % 2 == 0
  {
    if s == [] then 0 else U16(Big, s[..2]) + WordSum(s[2..])
  }

  /** Carries added back in until the total fits 16 bits. */
  function Fold(total: nat): nat {
    if total / 0x1_0000 == 0 then total else Fold(total % 0x1_0000 + total / 0x1_0000)
  }

  function Complement(total: nat): u16
    requires total < 0x1_0000
  {
    0xFFFF - total
  }

  function ChecksumOf(data: seq<byte>): u16 {
    FoldFits(WordSum(Even(data)));
    Complement(Fold(WordSum(Even(data))))
  }

  lemma {:induction false} FoldFits(total: nat)
    ensures Fold(total) < 0x1_0000
  {
    if total / 0x1_0000 != 0 {
      FoldFits(total % 0x1_0000 + total / 0x1_0000);
    }
  }

  /** Folding keeps the sum modulo 65535, and reaches 0 only from 0. */
  lemma {:induction false} FoldKeepsResidue(total: nat)
    ensures Fold(total) % 0xFFFF == total % 0xFFFF
    ensures Fold(total) == 0 <==> total == 0
  {
    var high, low := total / 0x1_0000, total % 0x1_0000;
    if high != 0 {
      FoldKeepsResidue(low + high);
      assert total == low + high + 0xFFFF * high;
      assert total % 0xFFFF == (low + high) % 0xFFFF;
    }
  }

  method Checksum(data: seq<byte>) returns (c: u16)
    ensures c == ChecksumOf(data)
  {
    var total := WordSum(Even(data));
    FoldFits(total);
    while total / 0x1_0000 != 0
      invariant Fold(total) == Fold(WordSum(Even(data)))
      decreases total
    {
      total := total % 0x1_0000 + total / 0x1_0000;
    }
    c := Complement(total);
  }

  lemma {:induction false} WordSumConcat(a: seq<byte>, b: seq<byte>)
    requires |a| % 2 == 0 && |b| % 2 == 0
    ensures WordSum(a + b) == WordSum(a) + WordSum(b)
  {
    if a == [] {
      assert a + b == b;
    } else {
      assert (a + b)[..2] == a[..2] && (a + b)[2..] == a[2..] + b;
      WordSumConcat(a[2..], b);
    }
  }

  lemma WordSumOne(n: u16)
    ensures WordSum(Put16(Big, n)) == n
  {
    Put16RoundTrip(Big, n);
    assert Put16(Big, n)[..2] == Put16(Big, n) && Put16(Big, n)[2..] == [];
  }

  /** Changing one octet changes the sum by its weight in its word. */
  lemma {:induction false} WordSumOctet(s: seq<byte>, k: nat, v: byte)
    requires |s| % 2 == 0 && k < |s|
    ensures WordSum(s[k := v]) - WordSum(s) == (v - s[k]) * if k % 2 == 0 then 0x100 else 1
  {
    var t := s[k := v];
    if k < 2 {
      assert t[2..] == s[2..];
    } else {
      assert t[..2] == s[..2] && t[2..] == s[2..][k - 2 := v];
      WordSumOctet(s[2..], k - 2, v);
    }
  }

  function Filled(data: seq<byte>, at: nat, sum: u16): seq<byte>
    requires at + 2 <= |data|
  {
    data[..at] + Put16(Big, sum) + data[at + 2..]
  }

  lemma EvenConcat(a: seq<byte>, b: seq<byte>)
    requires |a| % 2 == 0 && |b| % 2 == 0
    ensures |a + b| % 2 == 0
  {
  }

  lemma WordSumSandwich(all: seq<byte>, pre: seq<byte>, words: seq<byte>, post: seq<byte>)
    requires |pre| % 2 == 0 && |words| % 2 == 0 && |post| % 2 == 0 && all == pre + (words + post)
    ensures |all| % 2 == 0 && WordSum(all) == WordSum(pre) + WordSum(words) + WordSum(post)
  {
    var tail := words + post;
    EvenConcat(words, post);
    EvenConcat(pre, tail);
    WordSumConcat(words, post);
    WordSumConcat(pre, tail);
  }

  lemma EvenFilled(data: seq<byte>, at: nat, sum: u16)
    requires at % 2 == 0 && at + 2 <= |data|
    ensures Even(Filled(data, at, sum)) == data[..at] + (Put16(Big, sum) + Even(data)[at + 2..])
  {
  }

  lemma WordSumFilled(data: seq<byte>, at: nat, sum: u16)
    requires at % 2 == 0 && at + 2 <= |data| && data[at] == data[at + 1] == 0
    ensures WordSum(Even(Filled(data, at, sum))) == WordSum(Even(data)) + sum
  {
    var pre, post := data[..at], Even(data)[at + 2..];
    assert Put16(Big, 0) == [0, 0];
    assert Filled(data, at, 0) == data;
    EvenFilled(data, at, 0);
    EvenFilled(data, at, sum);
    WordSumOne(0);
    WordSumOne(sum);
    WordSumSandwich(Even(data), pre, Put16(Big, 0), post);
    WordSumSandwich(Even(Filled(data, at, sum)), pre, Put16(Big, sum), post);
  }

  lemma Congruent(total: nat, folded: nat)
    requires folded % 0xFFFF == total % 0xFFFF
    ensures (total + (0xFFFF - folded)) % 0xFFFF == 0
  {
    var q := total / 0xFFFF - folded / 0xFFFF + 1;
    assert total + (0xFFFF - folded) == 0xFFFF * q;
  }

  lemma FullWord(folded: nat)
    requires folded < 0x1_0000 && folded % 0xFFFF == 0 && folded > 0
    ensures folded == 0xFFFF
  {
  }

  lemma ComplementCancels(total: nat, folded: nat)
    requires folded < 0x1_0000 && folded % 0xFFFF == total % 0xFFFF && (folded == 0 <==> total == 0)
    ensures Fold(total + (0xFFFF - folded)) == 0xFFFF
  {
    var all := total + (0xFFFF - folded);
    FoldFits(all);
    FoldKeepsResidue(all);
    Congruent(total, folded);
    FullWord(Fold(all));
  }

  /** Writing the checksum of any data into its own zeroed field, at any even offset, makes the
      checksum of the result 0: the receiver's test passes. */
  lemma FilledChecksumIsZero(data: seq<byte>, at: nat)
    requires at % 2 == 0 && at + 2 <= |data| && data[at] == data[at + 1] == 0
    ensures ChecksumOf(Filled(data, at, ChecksumOf(data))) == 0
  {
    var total, sum := WordSum(Even(data)), ChecksumOf(data);
    WordSumFilled(data, at, sum);
    FoldFits(total);
    FoldKeepsResidue(total);
    ComplementCancels(total, Fold(total));
  }

  // ---------------------------------------------------------------------------
  // The sum, octet by octet
  // ---------------------------------------------------------------------------

  /** Octets at even places weigh 256, those at odd places 1. */
  function Weighed(data: seq<byte>): nat {
    if data == [] then 0
    else
      var n := |data| - 1;
      Weighed(data[..n]) + data[n] as int * if n % 2 == 0 then 256 else 1
  }

  lemma {:induction false} WordSumWeighed(s: seq<byte>)
    requires |s| % 2 == 0
    ensures WordSum(s) == Weighed(s)
  {
    if s != [] {
      var n := |s|;
      var front, a, b := s[..n - 2], s[n - 2], s[n - 1];
      WordSumWeighed(front);
      assert s == front + ([a, b] + []);
      WordSumConcat(front, [a, b] + []);
      WordSumStep(a, b, []);
      assert s[..n - 1][..n - 2] == front && s[..n - 1][n - 2] == a;
    }
  }

  /** The checksum is the one number that brings the weighed octets, however many, to a multiple of 65535,
      and is 65535 only of zeros. */
  lemma ChecksumCompletes(data: seq<byte>)
    ensures (Weighed(data) + ChecksumOf(data)) % 65535 == 0
    ensures ChecksumOf(data) == 65535 <==> Weighed(data) == 0
  {
    var total := WordSum(Even(data));
    WordSumWeighed(Even(data));
    assert Weighed(data) == Weighed(Even(data)) by {
      if |data| % 2 == 1 {
        assert (data + [0])[..|data|] == data;
      }
    }
    FoldFits(total);
    FoldKeepsResidue(total);
    Congruent(total, Fold(total));
  }

  // ---------------------------------------------------------------------------
  // A field at an odd offset
  // ---------------------------------------------------------------------------

  /** What a field adds to the sum when it straddles two words: its octets change places. */
  function Swapped(sum: u16): u16 {
    var n: int := sum;
    n % 0x100 * 0x100 + n / 0x100
  }

  lemma WordSumStep(a: byte, b: byte, rest: seq<byte>)
    requires |rest| % 2 == 0
    ensures WordSum([a, b] + rest) == a * 0x100 + b + WordSum(rest)
  {
    assert ([a, b] + rest)[..2] == [a, b] && ([a, b] + rest)[2..] == rest;
  }

  lemma WordSumFour(x: byte, a: byte, b: byte, y: byte)
    ensures WordSum([x, a, b, y]) == x * 0x100 + a + b * 0x100 + y
  {
    assert [x, a, b, y] == [x, a] + ([b, y] + []);
    WordSumStep(b, y, []);
    WordSumStep(x, a, [b, y] + []);
  }

  lemma EvenFilledOdd(data: seq<byte>, at: nat, sum: u16)
    requires at % 2 == 1 && at + 2 <= |data|
    ensures |Even(data)| >= at + 3
    ensures Even(Filled(data, at, sum))
         == data[..at - 1] + ([data[at - 1], sum / 0x100, sum % 0x100, Even(data)[at + 2]] + Even(data)[at + 3..])
  {
  }

  lemma FourBetween(all: seq<byte>, pre: seq<byte>, x: byte, a: byte, b: byte, y: byte, post: seq<byte>)
    requires |pre| % 2 == 0 && |post| % 2 == 0 && all == pre + ([x, a, b, y] + post)
    ensures |all| % 2 == 0
    ensures WordSum(all) == WordSum(pre) + (x * 0x100 + a + b * 0x100 + y) + WordSum(post)
  {
    WordSumFour(x, a, b, y);
    WordSumSandwich(all, pre, [x, a, b, y], post);
  }

  lemma StraddleSum(before: seq<byte>, after: seq<byte>, pre: seq<byte>, x: byte, sum: u16, y: byte, post: seq<byte>)
    requires |pre| % 2 == 0 && |post| % 2 == 0
    requires before == pre + ([x, 0, 0, y] + post) && after == pre + ([x, sum / 0x100, sum % 0x100, y] + post)
    ensures |before| % 2 == 0 && |after| % 2 == 0 && WordSum(after) == WordSum(before) + Swapped(sum)
  {
    FourBetween(before, pre, x, 0, 0, y, post);
    FourBetween(after, pre, x, sum / 0x100, sum % 0x100, y, post);
  }

  lemma WordSumFilledOdd(data: seq<byte>, at: nat, sum: u16)
    requires at % 2 == 1 && at + 2 <= |data| && data[at] == data[at + 1] == 0
    ensures WordSum(Even(Filled(data, at, sum))) == WordSum(Even(data)) + Swapped(sum)
  {
    EvenFilledOdd(data, at, 0);
    EvenFilledOdd(data, at, sum);
    assert Filled(data, at, 0) == data;
    StraddleSum(Even(data), Even(Filled(data, at, sum)), data[..at - 1], data[at - 1], sum, Even(data)[at + 2], Even(data)[at + 3..]);
  }

  /** The receiver's test passes on the non-zero multiples of 65535. */
  lemma ZeroExactly(total: nat)
    requires total > 0
    ensures Fold(total) < 0x1_0000
    ensures Complement(Fold(total)) == 0 <==> total % 0xFFFF == 0
  {
    FoldFits(total);
    FoldKeepsResidue(total);
  }

  lemma SwappedIsShifted(c: u16)
    ensures Swapped(c) == 0x100 * c - 0xFFFF * (c / 0x100)
  {
  }

  lemma ByParts(total: int, folded: int, sum: int, m: int)
    requires sum == 0x100 * (0xFFFF - folded) - 0xFFFF * m && total % 0xFFFF == folded % 0xFFFF
    ensures (total + sum) % 0xFFFF == 0 <==> total % 257 == 0
  {
    var q := total / 0xFFFF - folded / 0xFFFF;
    assert total == folded + 0xFFFF * q;
    assert total + sum == -255 * folded + 0xFFFF * (q + 0x100 - m);
    assert total == folded + 257 * (255 * q);
    Divides(folded, q + 0x100 - m, 255 * q);
  }

  lemma Divides(folded: int, k: int, j: int)
    ensures (-255 * folded + 0xFFFF * k) % 0xFFFF == 0 <==> (folded + 257 * j) % 257 == 0
  {
    var r := folded % 257;
    var w := folded / 257;
    assert -255 * folded + 0xFFFF * k == -255 * r + 0xFFFF * (k - w);
    assert folded + 257 * j == r + 257 * (w + j);
  }

  /** At an odd offset the checksum works out exactly when 257 divides the sum: folding turns the
      swapped octets into a factor of 256, and 256 - 1 and 65535 differ by the factor 257. */
  lemma OddOffsetExact(data: seq<byte>, at: nat)
    requires at % 2 == 1 && at + 2 <= |data| && data[at] == data[at + 1] == 0
    ensures ChecksumOf(Filled(data, at, ChecksumOf(data))) == 0 <==> WordSum(Even(data)) % 257 == 0
  {
    var total, sum := WordSum(Even(data)), ChecksumOf(data);
    FoldFits(total);
    FoldKeepsResidue(total);
    WordSumFilledOdd(data, at, sum);
    SwappedIsShifted(sum);
    ZeroExactly(total + Swapped(sum));
    ByParts(total, Fold(total), Swapped(sum), sum / 0x100);
  }
}
