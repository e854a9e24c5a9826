/** Splitting an IEC 60870-5-104 payload into APDUs. */
module Iec104 {
  import opened Wrappers
  import opened Bytes
  import OtTraffic

  const START: byte := 0x68
  const APCI_SIZE := 6

  datatype Format = FormatI | FormatS | FormatU

  datatype TypeClass = Monitor | Command | System

  datatype Apdu = Apdu(format: Format, control: byte, typeId: Option<byte>, cause: Option<byte>, address: Option<u16>)

  function ClassifyTypeId(t: byte): TypeClass {
    if t in {100, 101, 102, 103, 107} then System
    else if t < 45 then Monitor
    else Command
  }

  function ParseIFormat(apdu: seq<byte>, control: byte): Apdu {
    if |apdu| < APCI_SIZE + 1 then Apdu(FormatI, control, None, None, None)
    else
      Apdu(FormatI, control, Some(apdu[6]),
           if |apdu| > 8 then Some(apdu[8]) else None,
           if |apdu| > 11 then Some(U16(Little, apdu[10..12])) else None)
  }

  /** The low bits of the first control octet select the format. */
  function ParseApdu(apdu: seq<byte>): Apdu
    requires |apdu| >= APCI_SIZE
  {
    var control := apdu[2];
    if control % 2 == 0 then ParseIFormat(apdu, control)
    else if control % 4 == 1 then Apdu(FormatS, control, None, None, None)
    else Apdu(FormatU, control, None, None, None)
  }

  /** The octets of the APDU that starts here, cut at the end of the data. */
  function FirstApdu(data: seq<byte>): seq<byte>
    requires |data| >= 2
  {
    Take(data, 2 + data[1] as int)
  }

  function Apdus(data: seq<byte>, limit: nat): seq<Apdu>
    decreases limit
  {
    if limit == 0 || |data| < 2 || data[0] != START || |FirstApdu(data)| < APCI_SIZE then []
    else [ParseApdu(FirstApdu(data))] + Apdus(Drop(data, 2 + data[1] as int), limit - 1)
  }

  function NextAt(data: seq<byte>, offset: nat): (next: nat)
    requires offset + 2 <= |data|
    ensures next >= offset + 2
  {
    offset + 2 + data[offset + 1] as int
  }

  function SliceAt(data: seq<byte>, offset: nat): seq<byte>
    requires offset + 2 <= |data|
  {
    Slice(data, offset, NextAt(data, offset))
  }

  lemma ApdusAt(data: seq<byte>, offset: nat)
    requires offset + 2 <= |data|
    ensures var rest := Drop(data, offset);
            && |rest| >= 2 && rest[0] == data[offset]
            && FirstApdu(rest) == SliceAt(data, offset)
            && Drop(rest, 2 + rest[1] as int) == Drop(data, NextAt(data, offset))
  {
  }

  predicate AnotherAt(data: seq<byte>, offset: nat, left: nat) {
    left > 0 && offset + 2 <= |data| && data[offset] == START && |SliceAt(data, offset)| >= APCI_SIZE
  }

  /** `rest` is what is still to come at `offset`. */
  predicate ToCome(data: seq<byte>, offset: nat, left: nat, rest: seq<Apdu>)
    decreases left
  {
    if AnotherAt(data, offset, left) then
      rest != [] && rest[0] == ParseApdu(SliceAt(data, offset)) && ToCome(data, NextAt(data, offset), left - 1, rest[1..])
    else rest == []
  }

  lemma {:induction false} ApdusToCome(data: seq<byte>, offset: nat, left: nat)
    ensures ToCome(data, offset, left, Apdus(Drop(data, offset), left))
    decreases left
  {
    if offset + 2 <= |data| {
      ApdusAt(data, offset);
    }
    if AnotherAt(data, offset, left) {
      var rest := Apdus(Drop(data, NextAt(data, offset)), left - 1);
      ApdusToCome(data, NextAt(data, offset), left - 1);
      assert Apdus(Drop(data, offset), left) == [ParseApdu(SliceAt(data, offset))] + rest;
    }
  }

  lemma TakeFirst(whole: seq<Apdu>, out: seq<Apdu>, rest: seq<Apdu>)
    requires whole == out + rest && rest != []
    ensures whole == (out + [rest[0]]) + rest[1..]
  {
  }

  lemma AppendThree(a: seq<Apdu>, b: seq<Apdu>, c: seq<Apdu>)
    ensures a + (b + c) == (a + b) + c
  {
  }

  method ParseApdus(data: seq<byte>, limit: nat) returns (out: seq<Apdu>)
    ensures out == Apdus(data, limit)
  {
    out := [];
    var offset: nat := 0;
    ApdusToCome(data, 0, limit);
    assert Drop(data, 0) == data;
    ghost var left, rest, whole := limit, Apdus(data, limit), Apdus(data, limit);
    while |out| < limit && offset + 2 <= |data| && data[offset] == START
      invariant |out| + left == limit
      invariant whole == out + rest && ToCome(data, offset, left, rest)
      decreases left
    {
      var apdu := SliceAt(data, offset);
      if |apdu| < APCI_SIZE {
        break;
      }
      TakeFirst(whole, out, rest);
      out := out + [ParseApdu(apdu)];
      offset := NextAt(data, offset);
      left, rest := left - 1, rest[1..];
    }
    assert !AnotherAt(data, offset, left);
  }

  // ---------------------------------------------------------------------------
  // APDUs by their offsets
  // ---------------------------------------------------------------------------

  /** A start octet, a length of at least four, and the four control octets in full. */
  predicate StartsAt(data: seq<byte>, at: nat) { at + 6 <= |data| && data[at] == 0x68 && data[at + 1] >= 4 }

  /** Where the n-th APDU after the one at `at` starts, if it and all before it are there: each length leads
      to the next. */
  function Place(data: seq<byte>, at: nat, n: nat): (place: Option<nat>)
    ensures place.Some? ==> StartsAt(data, place.value)
    decreases n
  {
    if !StartsAt(data, at) then None
    else if n == 0 then Some(at)
    else Place(data, at + 2 + data[at + 1] as int, n - 1)
  }

  /** The octet of the data that is so far into the APDU starting at `at`, if its length reaches that far. */
  function OctetIn(data: seq<byte>, at: nat, k: nat): Option<byte>
    requires StartsAt(data, at)
  {
    if at + k < |data| && k < 2 + data[at + 1] as int then Some(data[at + k]) else None
  }

  /** The APDU is what the octets from `at` on say. */
  predicate SaysAt(data: seq<byte>, at: nat, apdu: Apdu)
    requires StartsAt(data, at)
  {
    && apdu.control == data[at + 2]
    && (apdu.format.FormatI? <==> data[at + 2] % 2 == 0)
    && (apdu.format.FormatS? <==> data[at + 2] % 4 == 1)
    && apdu.typeId == (if data[at + 2] % 2 == 0 then OctetIn(data, at, 6) else None)
    && apdu.cause == (if data[at + 2] % 2 == 0 then OctetIn(data, at, 8) else None)
    && (apdu.address.Some? <==> data[at + 2] % 2 == 0 && OctetIn(data, at, 11).Some?)
    && (apdu.address.Some? ==> apdu.address.value == data[at + 10] as int + 256 * data[at + 11] as int)
  }

  lemma ParsedSays(data: seq<byte>, at: nat)
    requires StartsAt(data, at)
    ensures |SliceAt(data, at)| >= 6 && SaysAt(data, at, ParseApdu(SliceAt(data, at)))
  {
    var apdu := SliceAt(data, at);
    forall k | 0 <= k < |apdu| ensures apdu[k] == data[at + k] {}
  }

  lemma SliceLength(data: seq<byte>, at: nat)
    requires at + 2 <= |data|
    ensures |SliceAt(data, at)| >= 6 && data[at] == 0x68 <==> StartsAt(data, at)
  {
  }

  /** The APDU at place n is what the octets there say. */
  predicate SaysAtPlace(data: seq<byte>, at: nat, n: nat, apdu: Apdu) {
    Place(data, at, n).Some? && SaysAt(data, Place(data, at, n).value, apdu)
  }

  /** APDU n of those read from `at` is found, if the limit and the octets allow, and is what they say. */
  predicate FoundAt(data: seq<byte>, at: nat, limit: nat, n: nat, apdus: seq<Apdu>) {
    && (n < |apdus| <==> n < limit && Place(data, at, n).Some?)
    && (n < |apdus| ==> SaysAtPlace(data, at, n, apdus[n]))
  }

  lemma FoundFirst(data: seq<byte>, at: nat, limit: nat, first: Apdu, rest: seq<Apdu>)
    requires limit > 0 && StartsAt(data, at) && SaysAt(data, at, first)
    ensures FoundAt(data, at, limit, 0, [first] + rest)
  {
  }

  lemma FoundNext(data: seq<byte>, at: nat, limit: nat, n: nat, first: Apdu, rest: seq<Apdu>, next: nat)
    requires n > 0 && limit > 0 && StartsAt(data, at) && next == NextAt(data, at) && FoundAt(data, next, limit - 1, n - 1, rest)
    ensures FoundAt(data, at, limit, n, [first] + rest)
  {
    assert Place(data, at, n) == Place(data, next, n - 1);
    assert n < |rest| + 1 ==> ([first] + rest)[n] == rest[n - 1];
  }

  lemma FoundNone(data: seq<byte>, at: nat, limit: nat, n: nat)
    requires limit == 0 || !StartsAt(data, at)
    ensures FoundAt(data, at, limit, n, [])
  {
  }

  lemma {:induction false} FoundToCome(data: seq<byte>, at: nat, limit: nat, n: nat, rest: seq<Apdu>)
    requires ToCome(data, at, limit, rest)
    ensures FoundAt(data, at, limit, n, rest)
    decreases n
  {
    if at + 2 <= |data| {
      SliceLength(data, at);
    }
    if limit == 0 || !StartsAt(data, at) {
      FoundNone(data, at, limit, n);
    } else {
      ParsedSays(data, at);
      var first, tail := rest[0], rest[1..];
      assert rest == [first] + tail;
      if n > 0 {
        FoundToCome(data, NextAt(data, at), limit - 1, n - 1, tail);
        FoundNext(data, at, limit, n, first, tail, NextAt(data, at));
      } else {
        FoundFirst(data, at, limit, first, tail);
      }
    }
  }

  lemma AllFound(data: seq<byte>, limit: nat, apdus: seq<Apdu>)
    requires apdus == Apdus(data, limit)
    ensures forall n: nat :: FoundAt(data, 0, limit, n, apdus)
  {
    assert Drop(data, 0) == data;
    ApdusToCome(data, 0, limit);
    forall n: nat ensures FoundAt(data, 0, limit, n, apdus) {
      FoundToCome(data, 0, limit, n, apdus);
    }
  }

  /** The parser finds APDU n exactly when it and all before it are there, within the limit, and takes it
      for what its octets say. */
  lemma ApdusByPlace(data: seq<byte>, limit: nat, n: nat)
    ensures n < |Apdus(data, limit)| <==> n < limit && Place(data, 0, n).Some?
    ensures n < |Apdus(data, limit)| ==> SaysAt(data, Place(data, 0, n).value, Apdus(data, limit)[n])
  {
    AllFound(data, limit, Apdus(data, limit));
    assert FoundAt(data, 0, limit, n, Apdus(data, limit));
  }

  // ---------------------------------------------------------------------------
  // Concatenation
  // ---------------------------------------------------------------------------

  /** A start octet, a length octet that is right, and at least the four control octets. */
  predicate Complete(apdu: seq<byte>) {
    |apdu| >= APCI_SIZE && apdu[0] == START && |apdu| == 2 + apdu[1] as int
  }

  type WholeApdu = a: seq<byte> | Complete(a) witness [START, 4, 0, 0, 0, 0]

  function Concat(apdus: seq<WholeApdu>): seq<byte> { if apdus == [] then [] else apdus[0] + Concat(apdus[1..]) }

  function ParseEach(apdus: seq<WholeApdu>): (r: seq<Apdu>)
    ensures |r| == |apdus| && forall k :: 0 <= k < |r| ==> r[k] == ParseApdu(apdus[k])
  {
    if apdus == [] then [] else [ParseApdu(apdus[0])] + ParseEach(apdus[1..])
  }

  lemma ApdusFront(apdu: WholeApdu, rest: seq<byte>, limit: nat)
    requires limit > 0
    ensures Apdus(apdu + rest, limit) == [ParseApdu(apdu)] + Apdus(rest, limit - 1)
  {
    assert FirstApdu(apdu + rest) == apdu;
    assert Drop(apdu + rest, |apdu|) == rest;
  }

  lemma ApdusOfFirst(apdus: seq<WholeApdu>, rest: seq<byte>, limit: nat)
    requires apdus != [] && limit > 0
    ensures Apdus(Concat(apdus) + rest, limit)
         == [ParseApdu(apdus[0])] + Apdus(Concat(apdus[1..]) + rest, limit - 1)
  {
    var tail := Concat(apdus[1..]) + rest;
    assert Concat(apdus) + rest == apdus[0] + tail;
    ApdusFront(apdus[0], tail, limit);
  }

  lemma ApdusOfNone(apdus: seq<WholeApdu>, rest: seq<byte>, limit: nat)
    requires apdus == []
    ensures Apdus(Concat(apdus) + rest, limit) == ParseEach(apdus) + Apdus(rest, limit)
  {
    var behind := Apdus(rest, limit);
    assert Concat(apdus) + rest == rest;
    assert ParseEach(apdus) + behind == behind;
  }

  lemma ApdusOfMore(apdus: seq<WholeApdu>, tail: seq<WholeApdu>, rest: seq<byte>, limit: nat, behind: seq<Apdu>)
    requires apdus != [] && tail == apdus[1..] && limit > 0
    requires Apdus(Concat(tail) + rest, limit - 1) == ParseEach(tail) + behind
    ensures Apdus(Concat(apdus) + rest, limit) == ParseEach(apdus) + behind
  {
    ApdusOfFirst(apdus, rest, limit);
    AppendThree([ParseApdu(apdus[0])], ParseEach(tail), behind);
  }

  /** Complete APDUs packed back to back, in front of anything, are parsed one by one; then
      parsing goes on with what follows, within what is left of the limit. */
  lemma {:induction false} ApdusOfConcat(apdus: seq<WholeApdu>, rest: seq<byte>, limit: nat)
    requires |apdus| <= limit
    ensures Apdus(Concat(apdus) + rest, limit) == ParseEach(apdus) + Apdus(rest, limit - |apdus|)
  {
    if apdus == [] {
      ApdusOfNone(apdus, rest, limit);
    } else {
      var tail := apdus[1..];
      ApdusOfConcat(tail, rest, limit - 1);
      ApdusOfMore(apdus, tail, rest, limit, Apdus(rest, limit - |apdus|));
    }
  }

  /** More APDUs than the limit are cut at the limit. */
  lemma {:induction false} ApdusCutAtLimit(apdus: seq<WholeApdu>, rest: seq<byte>, limit: nat)
    requires limit <= |apdus|
    ensures Apdus(Concat(apdus) + rest, limit) == ParseEach(apdus[..limit])
  {
    if limit > 0 {
      ApdusOfFirst(apdus, rest, limit);
      ApdusCutAtLimit(apdus[1..], rest, limit - 1);
      assert apdus[..limit][1..] == apdus[1..][..limit - 1];
    }
  }

  /** Every APDU reported stands for at least six octets of the payload. */
  lemma {:induction false} SixOctetsEach(data: seq<byte>, limit: nat)
    ensures 6 * |Apdus(data, limit)| <= |data| && |Apdus(data, limit)| <= limit
    decreases limit
  {
    if Apdus(data, limit) != [] {
      SixOctetsEach(Drop(data, 2 + data[1] as int), limit - 1);
    }
  }

  // ---------------------------------------------------------------------------
  // Truncation
  // ---------------------------------------------------------------------------

  predicate Missing<T(==)>(a: Option<T>, b: Option<T>) { a.None? || a == b }

  /** The same APDU with some of its optional fields absent. */
  predicate LessDetailed(a: Apdu, b: Apdu) {
    a.format == b.format && a.control == b.control
    && Missing(a.typeId, b.typeId) && Missing(a.cause, b.cause) && Missing(a.address, b.address)
  }

  predicate CutOf(a: seq<Apdu>, b: seq<Apdu>) {
    |a| <= |b|
    && (forall k :: 0 <= k < |a| - 1 ==> a[k] == b[k])
    && (a != [] ==> LessDetailed(a[|a| - 1], b[|a| - 1]))
  }

  lemma ParsePrefix(p: seq<byte>, s: seq<byte>)
    requires APCI_SIZE <= |p| && p <= s
    ensures LessDetailed(ParseApdu(p), ParseApdu(s))
  {
    assert |p| > 11 ==> p[10..12] == s[10..12];
  }

  lemma CutFirst(data: seq<byte>, cut: nat, p: seq<byte>, size: nat)
    requires 2 <= cut <= |data| && p == data[..cut] && size == 2 + p[1] as int
    ensures FirstApdu(p) <= FirstApdu(data)
    ensures size <= cut ==> FirstApdu(p) == FirstApdu(data) && Drop(p, size) == Drop(data, size)[..cut - size]
    ensures size > cut ==> Drop(p, size) == []
  {
  }

  lemma CutOfFirst(x: Apdu, a: seq<Apdu>, b: seq<Apdu>)
    requires CutOf(a, b)
    ensures CutOf([x] + a, [x] + b)
  {
  }

  /** A payload cut within its first APDU. */
  lemma CutWithinFirst(data: seq<byte>, cut: nat, p: seq<byte>, limit: nat)
    requires cut <= |data| && p == data[..cut] && Apdus(p, limit) != [] && 2 + p[1] as int > cut
    ensures CutOf(Apdus(p, limit), Apdus(data, limit))
  {
    CutFirst(data, cut, p, 2 + p[1] as int);
    ParsePrefix(FirstApdu(p), FirstApdu(data));
    assert Apdus(p, limit) == [ParseApdu(FirstApdu(p))];
  }

  /** A payload cut behind its first APDU. */
  lemma CutBehindFirst(data: seq<byte>, cut: nat, p: seq<byte>, size: nat, limit: nat)
    requires cut <= |data| && p == data[..cut] && Apdus(p, limit) != [] && size == 2 + p[1] as int && size <= cut
    requires CutOf(Apdus(Drop(data, size)[..cut - size], limit - 1), Apdus(Drop(data, size), limit - 1))
    ensures CutOf(Apdus(p, limit), Apdus(data, limit))
  {
    CutFirst(data, cut, p, size);
    CutOfFirst(ParseApdu(FirstApdu(data)), Apdus(Drop(p, size), limit - 1), Apdus(Drop(data, size), limit - 1));
  }

  /** Cutting a payload anywhere gives a prefix of its APDUs, except that the last one may have
      lost optional fields; no field ever comes out different. */
  lemma {:induction false} TruncationLosesOnlyDetail(data: seq<byte>, cut: nat, limit: nat)
    requires cut <= |data|
    ensures CutOf(Apdus(data[..cut], limit), Apdus(data, limit))
    decreases limit
  {
    var p := data[..cut];
    if Apdus(p, limit) != [] {
      var size := 2 + p[1] as int;
      if size <= cut {
        TruncationLosesOnlyDetail(Drop(data, size), cut - size, limit - 1);
        CutBehindFirst(data, cut, p, size, limit);
      } else {
        CutWithinFirst(data, cut, p, limit);
      }
    }
  }

  // ---------------------------------------------------------------------------
  // Built frames
  // ---------------------------------------------------------------------------

  lemma IFrameFields(t: byte, cause: u16, address: u16, ioa: u32, payload: seq<byte>)
    requires OtTraffic.IecIFrame(t, cause, address, ioa, payload).Ok?
    ensures var f := OtTraffic.IecIFrame(t, cause, address, ioa, payload).value;
            Complete(f) && |f| >= 12 && f[2] == 0 && f[6] == t && f[8] == cause % 0x100 && f[10..12] == Put16(Little, address)
  {
  }

  /** Every frame the builder makes parses back to its own type and address; the cause comes back
      modulo 256, so it survives exactly when it fits one octet. */
  lemma IFrameRoundTrip(t: byte, cause: u16, address: u16, ioa: u32, payload: seq<byte>, limit: nat)
    requires limit > 0 && OtTraffic.IecIFrame(t, cause, address, ioa, payload).Ok?
    ensures Apdus(OtTraffic.IecIFrame(t, cause, address, ioa, payload).value, limit)
         == [Apdu(FormatI, 0, Some(t), Some(cause % 0x100), Some(address))]
    ensures cause % 0x100 == cause <==> cause < 0x100
  {
    var f := OtTraffic.IecIFrame(t, cause, address, ioa, payload).value;
    IFrameFields(t, cause, address, ioa, payload);
    Put16RoundTrip(Little, address);
    assert f + [] == f;
    ApdusFront(f, [], limit);
  }

  lemma UFrameRoundTrip(control: byte, limit: nat)
    requires limit > 0
    ensures |Apdus(OtTraffic.IecUFrame(control), limit)| == 1
    ensures control % 4 == 3 ==>
      Apdus(OtTraffic.IecUFrame(control), limit) == [Apdu(FormatU, control, None, None, None)]
  {
    var f := OtTraffic.IecUFrame(control);
    assert f + [] == f;
    ApdusFront(f, [], limit);
  }
}
