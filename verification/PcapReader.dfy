/** Capture files: what each byte string means as a stream of records, and the streaming
    reader that pulls it out of a file handle. */
module PcapReader {
  import opened Wrappers
  import opened Bytes

  const MAGIC_USEC_LE: seq<byte> := [0xD4, 0xC3, 0xB2, 0xA1]
  const MAGIC_USEC_BE: seq<byte> := [0xA1, 0xB2, 0xC3, 0xD4]
  const MAGIC_NSEC_LE: seq<byte> := [0x4D, 0x3C, 0xB2, 0xA1]
  const MAGIC_NSEC_BE: seq<byte> := [0xA1, 0xB2, 0x3C, 0x4D]

  const BT_SHB: u32 := 0x0A0D0D0A
  const BT_IDB: u32 := 1
  const BT_PB: u32 := 2
  const BT_SPB: u32 := 3
  const BT_EPB: u32 := 6
  const SHB_MAGIC: u32 := 0x1A2B3C4D
  const MAX_BLOCK: u32 := 0x400_0000

  const MICROS := 1000000.0

  datatype Record = Record(ts: real, linktype: nat, frame: seq<byte>)

  /** The exceptions the reader can raise. `OptionIndex` is the IndexError of an if_tsresol
      option whose value lies past the end of the block. */
  datatype Error =
    | TooShort
    | BadMagic
    | TruncatedGlobalHeader
    | ImplausibleRecord
    | TruncatedSection
    | BadByteOrderMagic
    | ImplausibleSection
    | ImplausibleBlock
    | OptionIndex

  datatype Stop = Ended | Raised(error: Error)

  /** Everything a run of the generator does: what it yields, then how it stops. */
  datatype Stream = Stream(records: seq<Record>, stop: Stop)

  function Prepend(out: seq<Record>, s: Stream): Stream { Stream(out + s.records, s.stop) }

  // ---------------------------------------------------------------------------
  // Classic libpcap
  // ---------------------------------------------------------------------------

  predicate IsClassicMagic(magic: seq<byte>) {
    magic == MAGIC_USEC_LE || magic == MAGIC_USEC_BE || magic == MAGIC_NSEC_LE || magic == MAGIC_NSEC_BE
  }

  function ClassicEndian(magic: seq<byte>): Endian {
    if magic == MAGIC_USEC_LE || magic == MAGIC_NSEC_LE then Little else Big
  }

  function ClassicDivisor(magic: seq<byte>): (d: real)
    ensures d > 0.0
  {
    if magic == MAGIC_NSEC_LE || magic == MAGIC_NSEC_BE then 1000000000.0 else MICROS
  }

  function ClassicRecord(e: Endian, divisor: real, linktype: nat, header: seq<byte>, frame: seq<byte>): Record
    requires |header| == 16 && divisor > 0.0
  {
    Record(U32(e, header[..4]) as real + U32(e, header[4..8]) as real / divisor, linktype, frame)
  }

  /** One turn of the record loop: stop, or consume `size` octets and yield a record. */
  datatype ClassicStep = Stopped(stop: Stop) | Got(size: nat, record: Record)

  function RecordStep(e: Endian, divisor: real, linktype: nat, s: seq<byte>): (r: ClassicStep)
    requires divisor > 0.0
    ensures r.Got? ==> 16 <= r.size <= |s|
  {
    if |s| < 16 then Stopped(Ended)
    else
      var inclLen := U32(e, s[8..12]);
      if inclLen > MAX_BLOCK then Stopped(Raised(ImplausibleRecord))
      else if |s| < 16 + inclLen then Stopped(Ended)
      else Got(16 + inclLen, ClassicRecord(e, divisor, linktype, s[..16], s[16..16 + inclLen]))
  }

  /** What follows the global header. */
  function ClassicRecords(e: Endian, divisor: real, linktype: nat, s: seq<byte>): Stream
    requires divisor > 0.0
    decreases |s|
  {
    match RecordStep(e, divisor, linktype, s)
    case Stopped(stop) => Stream([], stop)
    case Got(size, record) => Prepend([record], ClassicRecords(e, divisor, linktype, s[size..]))
  }

  /** What follows the four magic octets. */
  function ClassicFile(magic: seq<byte>, s: seq<byte>): Stream {
    if |s| < 20 then Stream([], Raised(TruncatedGlobalHeader))
    else ClassicRecords(ClassicEndian(magic), ClassicDivisor(magic), U32(ClassicEndian(magic), s[16..20]), s[20..])
  }

  lemma ClassicAdvance(whole: Stream, out: seq<Record>, e: Endian, divisor: real, linktype: nat, s: seq<byte>, step: ClassicStep)
    requires divisor > 0.0 && step == RecordStep(e, divisor, linktype, s)
    requires whole == Prepend(out, ClassicRecords(e, divisor, linktype, s))
    ensures if step.Stopped? then whole == Stream(out, step.stop)
            else whole == Prepend(out + [step.record], ClassicRecords(e, divisor, linktype, s[step.size..]))
  {
    if step.Got? {
      var rest := ClassicRecords(e, divisor, linktype, s[step.size..]).records;
      assert out + ([step.record] + rest) == (out + [step.record]) + rest;
    }
  }

  // ---------------------------------------------------------------------------
  // pcapng
  // ---------------------------------------------------------------------------

  datatype Iface = Iface(linktype: nat, divisor: real)

  const DEFAULT_IFACE := Iface(1, MICROS)

  /** What the block loop carries from one block to the next. */
  datatype NgState = NgState(endian: Endian, interfaces: seq<Iface>)

  ghost predicate ValidIfaces(interfaces: seq<Iface>) {
    forall k :: 0 <= k < |interfaces| ==> interfaces[k].divisor > 0.0
  }

  function Pow(base: real, n: nat): (r: real)
    requires base > 0.0
    ensures r > 0.0
  {
    if n == 0 then 1.0 else base * Pow(base, n - 1)
  }

  function Pad4(n: nat): (p: nat)
    ensures p < 4 && (n + p) % 4 == 0
  {
    var m: int := n;
    (-m) % 4
  }

  /** The if_tsresol octet: a set high bit selects a power of two. */
  function Resolution(raw: byte): (d: real)
    ensures d > 0.0
  {
    if raw >= 0x80 then Pow(2.0, raw % 0x80) else Pow(10.0, raw)
  }

  /** The divisor an option list announces; None is the IndexError of a cut-off if_tsresol. */
  function DivisorOf(options: seq<byte>, e: Endian): (d: Option<real>)
    ensures d.Some? ==> d.value > 0.0
    decreases |options|
  {
    if |options| < 4 then Some(MICROS)
    else
      var code, length := U16(e, options[..2]), U16(e, options[2..4]);
      if code == 0 then Some(MICROS)
      else if code == 9 && length >= 1 then
        var value := Slice(options, 4, 4 + length);
        if value == [] then None else Some(Resolution(value[0]))
      else DivisorOf(Drop(options, 4 + length + Pad4(length)), e)
  }

  function InterfaceOf(body: seq<byte>, e: Endian): (i: Option<Iface>)
    ensures i.Some? ==> i.value.divisor > 0.0
  {
    if |body| < 8 then Some(DEFAULT_IFACE)
    else
      match DivisorOf(body[8..], e)
      case None => None
      case Some(d) => Some(Iface(U16(e, body[..2]), d))
  }

  function Interface(interfaces: seq<Iface>, index: nat): (i: Iface)
    requires ValidIfaces(interfaces)
    ensures i.divisor > 0.0
  {
    if index < |interfaces| then interfaces[index] else DEFAULT_IFACE
  }

  function Timestamp(high: u32, low: u32, divisor: real): real
    requires divisor > 0.0
  {
    (high * 0x1_0000_0000 + low) as real / divisor
  }

  function ParseEpb(body: seq<byte>, e: Endian, interfaces: seq<Iface>): Option<Record>
    requires ValidIfaces(interfaces)
  {
    if |body| < 20 then None
    else
      var iface := Interface(interfaces, U32(e, body[..4]));
      var caplen := U32(e, body[12..16]);
      var frame := Slice(body, 20, 20 + caplen);
      if |frame| < caplen then None
      else Some(Record(Timestamp(U32(e, body[4..8]), U32(e, body[8..12]), iface.divisor), iface.linktype, frame))
  }

  function ParseObsoletePb(body: seq<byte>, e: Endian, interfaces: seq<Iface>): Option<Record>
    requires ValidIfaces(interfaces)
  {
    if |body| < 20 then None
    else
      var iface := Interface(interfaces, U16(e, body[..2]));
      var caplen := U32(e, body[12..16]);
      var frame := Slice(body, 20, 20 + caplen);
      if |frame| < caplen then None
      else Some(Record(Timestamp(U32(e, body[4..8]), U32(e, body[8..12]), iface.divisor), iface.linktype, frame))
  }

  function OptionSeq(r: Option<Record>): seq<Record> { if r.Some? then [r.value] else [] }

  /** One turn of the block loop: stop, or consume `size` octets and go on. */
  datatype NgStep = Halt(stop: Stop) | Go(size: nat, next: NgState, out: seq<Record>)

  function SectionStep(s: seq<byte>): (r: NgStep)
    requires |s| >= 8
    ensures r.Go? ==> 0 < r.size <= |s| && ValidIfaces(r.next.interfaces)
  {
    if |s| < 12 then Halt(Raised(TruncatedSection))
    else
      var e := if U32(Little, s[8..12]) == SHB_MAGIC then Little else Big;
      if U32(e, s[8..12]) != SHB_MAGIC then Halt(Raised(BadByteOrderMagic))
      else
        var total := U32(e, s[4..8]);
        if total < 16 || total > MAX_BLOCK then Halt(Raised(ImplausibleSection))
        else if |s| < total then Halt(Ended)
        else Go(total, NgState(e, []), [])
  }

  /** What a whole block with this body does. */
  function BodyStep(blockType: u32, body: seq<byte>, st: NgState, size: nat): (r: NgStep)
    requires ValidIfaces(st.interfaces)
    ensures r.Go? ==> r.size == size && ValidIfaces(r.next.interfaces)
  {
    if blockType == BT_IDB then
      match InterfaceOf(body, st.endian)
      case None => Halt(Raised(OptionIndex))
      case Some(i) => Go(size, NgState(st.endian, st.interfaces + [i]), [])
    else if blockType == BT_EPB then Go(size, st, OptionSeq(ParseEpb(body, st.endian, st.interfaces)))
    else if blockType == BT_SPB then
      Go(size, st, if |body| >= 4 then [Record(0.0, Interface(st.interfaces, 0).linktype, body[4..])] else [])
    else if blockType == BT_PB then Go(size, st, OptionSeq(ParseObsoletePb(body, st.endian, st.interfaces)))
    else Go(size, st, [])
  }

  function BlockStep(s: seq<byte>, st: NgState): (r: NgStep)
    requires ValidIfaces(st.interfaces)
    ensures r.Go? ==> 0 < r.size <= |s| && ValidIfaces(r.next.interfaces)
  {
    if |s| < 8 then Halt(Ended)
    else if U32(st.endian, s[..4]) == BT_SHB then SectionStep(s)
    else
      var total := U32(st.endian, s[4..8]);
      if total < 12 || total > MAX_BLOCK then Halt(Raised(ImplausibleBlock))
      else if |s| < total then Halt(Ended)
      else BodyStep(U32(st.endian, s[..4]), s[8..total - 4], st, total)
  }

  function NgRecords(s: seq<byte>, st: NgState): Stream
    requires ValidIfaces(st.interfaces)
    decreases |s|
  {
    match BlockStep(s, st)
    case Halt(stop) => Stream([], stop)
    case Go(size, next, out) => Prepend(out, NgRecords(s[size..], next))
  }

  lemma NgAdvance(whole: Stream, out: seq<Record>, s: seq<byte>, st: NgState, b: NgStep)
    requires ValidIfaces(st.interfaces) && whole == Prepend(out, NgRecords(s, st)) && b == BlockStep(s, st)
    ensures if b.Halt? then whole == Stream(out, b.stop)
            else whole == Prepend(out + b.out, NgRecords(s[b.size..], b.next))
  {
    if b.Go? {
      var rest := NgRecords(s[b.size..], b.next).records;
      assert out + (b.out + rest) == (out + b.out) + rest;
    }
  }

  const NG_START := NgState(Little, [])

  // ---------------------------------------------------------------------------
  // A whole file
  // ---------------------------------------------------------------------------

  predicate IsNgMagic(magic: seq<byte>)
    requires |magic| == 4
  {
    U32(Little, magic) == BT_SHB || U32(Big, magic) == BT_SHB
  }

  /** What reading the file `data` yields, and how it stops. */
  function Capture(data: seq<byte>): Stream {
    if |data| < 4 then Stream([], Raised(TooShort))
    else if IsClassicMagic(data[..4]) then ClassicFile(data[..4], data[4..])
    else if IsNgMagic(data[..4]) then NgRecords(data, NG_START)
    else Stream([], Raised(BadMagic))
  }

  // ---------------------------------------------------------------------------
  // The streaming reader
  // ---------------------------------------------------------------------------

  /** A binary file handle open for reading. */
  class FileReader {
    const data: seq<byte>
    var pos: nat

    ghost predicate Valid() reads this { pos <= |data| }

    ghost function Rest(): seq<byte>
      requires Valid()
      reads this
    {
      data[pos..]
    }

    constructor (data: seq<byte>)
      ensures Valid() && this.data == data && Rest() == data
    {
      this.data := data;
      pos := 0;
    }

    method Read(n: nat) returns (chunk: seq<byte>)
      requires Valid()
      modifies this
      ensures Valid()
      ensures chunk == Take(old(Rest()), n) && Rest() == Drop(old(Rest()), n)
    {
      var stop := Min(pos + n, |data|);
      chunk := data[pos..stop];
      pos := stop;
    }

    method SeekStart()
      modifies this
      ensures Valid() && Rest() == data
    {
      pos := 0;
    }
  }

  /** One option read at `offset`, seen from the options that are left there. */
  lemma OptionAt(options: seq<byte>, e: Endian, offset: nat)
    requires offset + 4 <= |options|
    ensures var s, code, length := Drop(options, offset), U16(e, options[offset..offset + 2]), U16(e, options[offset + 2..offset + 4]);
            && s[..2] == options[offset..offset + 2]
            && s[2..4] == options[offset + 2..offset + 4]
            && Slice(options, offset + 4, offset + 4 + length) == Slice(s, 4, 4 + length)
            && Drop(s, 4 + length + Pad4(length)) == Drop(options, offset + 4 + length + Pad4(length))
  {
  }

  lemma DivisorFirst(s: seq<byte>, e: Endian, code: u16, length: u16, value: seq<byte>, rest: seq<byte>)
    requires |s| >= 4 && code == U16(e, s[..2]) && length == U16(e, s[2..4])
    requires value == Slice(s, 4, 4 + length) && rest == Drop(s, 4 + length + Pad4(length))
    ensures code == 0 ==> DivisorOf(s, e) == Some(MICROS)
    ensures code == 9 && length >= 1 ==> DivisorOf(s, e) == if value == [] then None else Some(Resolution(value[0]))
    ensures code != 0 && !(code == 9 && length >= 1) ==> DivisorOf(s, e) == DivisorOf(rest, e)
  {
  }

  /** What the options left at `offset` announce: the option there decides, or the ones behind it do. */
  lemma DivisorAt(options: seq<byte>, e: Endian, offset: nat, code: u16, length: u16, value: seq<byte>, next: nat)
    requires offset + 4 <= |options|
    requires code == U16(e, options[offset..offset + 2]) && length == U16(e, options[offset + 2..offset + 4])
    requires value == Slice(options, offset + 4, offset + 4 + length) && next == offset + 4 + length + Pad4(length)
    ensures code == 0 ==> DivisorOf(Drop(options, offset), e) == Some(MICROS)
    ensures code == 9 && length >= 1 ==>
      DivisorOf(Drop(options, offset), e) == if value == [] then None else Some(Resolution(value[0]))
    ensures code != 0 && !(code == 9 && length >= 1) ==>
      DivisorOf(Drop(options, offset), e) == DivisorOf(Drop(options, next), e)
  {
    OptionAt(options, e, offset);
    DivisorFirst(Drop(options, offset), e, code, length, value, Drop(options, next));
  }

  lemma DivisorAtEnd(options: seq<byte>, e: Endian, offset: nat)
    requires offset + 4 > |options|
    ensures DivisorOf(Drop(options, offset), e) == Some(MICROS)
  {
  }

  method TimestampDivisor(options: seq<byte>, e: Endian) returns (d: Option<real>)
    ensures d == DivisorOf(options, e)
  {
    var offset := 0;
    assert Drop(options, 0) == options;
    ghost var meaning := DivisorOf(options, e);
    while offset + 4 <= |options|
      invariant meaning == DivisorOf(Drop(options, offset), e)
      decreases |options| - offset
    {
      var code, length := U16(e, options[offset..offset + 2]), U16(e, options[offset + 2..offset + 4]);
      var value := Slice(options, offset + 4, offset + 4 + length);
      var next := offset + 4 + length + Pad4(length);
      DivisorAt(options, e, offset, code, length, value, next);
      if code == 0 {
        assert meaning == Some(MICROS);
        break;
      }
      if code == 9 && length >= 1 {
        return if value == [] then None else Some(Resolution(value[0]));
      }
      offset := next;
    }
    if offset + 4 > |options| {
      DivisorAtEnd(options, e, offset);
    }
    return Some(MICROS);
  }

  method ParseIdb(body: seq<byte>, e: Endian) returns (i: Option<Iface>)
    ensures i == InterfaceOf(body, e)
  {
    if |body| < 8 {
      return Some(DEFAULT_IFACE);
    }
    var d := TimestampDivisor(body[8..], e);
    return if d.None? then None else Some(Iface(U16(e, body[..2]), d.value));
  }

  method NextRecord(handle: FileReader, e: Endian, divisor: real, linktype: nat) returns (step: ClassicStep)
    requires handle.Valid() && divisor > 0.0
    modifies handle
    ensures handle.Valid() && step == RecordStep(e, divisor, linktype, old(handle.Rest()))
    ensures step.Got? ==> handle.Rest() == old(handle.Rest())[step.size..]
  {
    ghost var s := handle.Rest();
    var raw := handle.Read(16);
    if |raw| < 16 {
      return Stopped(Ended);
    }
    var inclLen := U32(e, raw[8..12]);
    assert raw == s[..16] && raw[8..12] == s[8..12];
    if inclLen > MAX_BLOCK {
      return Stopped(Raised(ImplausibleRecord));
    }
    var frame := handle.Read(inclLen);
    if |frame| < inclLen {
      return Stopped(Ended);
    }
    assert frame == s[16..16 + inclLen] && handle.Rest() == s[16 + inclLen..];
    return Got(16 + inclLen, ClassicRecord(e, divisor, linktype, raw, frame));
  }

  method ReadClassic(handle: FileReader, magic: seq<byte>) returns (out: seq<Record>, stop: Stop)
    requires handle.Valid()
    modifies handle
    ensures Stream(out, stop) == ClassicFile(magic, old(handle.Rest()))
  {
    var e, divisor := ClassicEndian(magic), ClassicDivisor(magic);
    out := [];
    ghost var s := handle.Rest();
    var rest := handle.Read(20);
    if |rest| < 20 {
      return out, Raised(TruncatedGlobalHeader);
    }
    assert rest == s[..20] && rest[16..20] == s[16..20] && handle.Rest() == s[20..];
    var linktype := U32(e, rest[16..20]);
    ghost var whole := ClassicRecords(e, divisor, linktype, s[20..]);
    assert whole == ClassicFile(magic, s);
    while true
      invariant handle.Valid()
      invariant whole == Prepend(out, ClassicRecords(e, divisor, linktype, handle.Rest()))
      decreases |handle.Rest()|
    {
      s := handle.Rest();
      var step := NextRecord(handle, e, divisor, linktype);
      ClassicAdvance(whole, out, e, divisor, linktype, s, step);
      if step.Stopped? {
        return out, step.stop;
      }
      out := out + [step.record];
    }
  }

  /** Reads the byte-order magic, leaving the handle 12 octets into the block. */
  method ReadShbHeader(handle: FileReader, head: seq<byte>) returns (r: Result<(Endian, nat), Error>)
    requires handle.Valid() && |head| == 8
    modifies handle
    ensures handle.Valid()
    ensures r.Err? ==> SectionStep(head + old(handle.Rest())) == Halt(Raised(r.error))
    ensures r.Ok? ==> 16 <= r.value.1 <= MAX_BLOCK && |old(handle.Rest())| >= 4 && handle.Rest() == old(handle.Rest())[4..]
    ensures r.Ok? ==>
      SectionStep(head + old(handle.Rest()))
      == (if |old(handle.Rest())| + 8 < r.value.1 then Halt(Ended) else Go(r.value.1, NgState(r.value.0, []), []))
  {
    ghost var s := head + handle.Rest();
    var magic := handle.Read(4);
    if |magic| < 4 {
      return Err(TruncatedSection);
    }
    assert magic == s[8..12] && head[4..8] == s[4..8];
    var e := if U32(Little, magic) == SHB_MAGIC then Little else Big;
    if U32(e, magic) != SHB_MAGIC {
      return Err(BadByteOrderMagic);
    }
    var total := U32(e, head[4..8]);
    if total < 16 || total > MAX_BLOCK {
      return Err(ImplausibleSection);
    }
    return Ok((e, total));
  }

  /** Two reads in a row: the second takes up where the first left off. */
  lemma ReadTwice(s: seq<byte>, n: nat)
    ensures |Take(s, n)| == Min(n, |s|) && |Take(Drop(s, n), 4)| == Min(4, |s| - Min(n, |s|))
    ensures |s| >= n ==> Take(s, n) == s[..n]
    ensures |s| >= n + 4 ==> Drop(Drop(s, n), 4) == s[n + 4..]
  {
  }

  /** Reads `n` octets and the trailing four; false when the file ends first. */
  method ReadBody(handle: FileReader, n: nat) returns (body: seq<byte>, whole: bool)
    requires handle.Valid()
    modifies handle
    ensures handle.Valid() && whole == (|old(handle.Rest())| >= n + 4)
    ensures whole ==> body == old(handle.Rest())[..n] && handle.Rest() == old(handle.Rest())[n + 4..]
  {
    ReadTwice(handle.Rest(), n);
    body := handle.Read(n);
    if |body| < n {
      return body, false;
    }
    var trailer := handle.Read(4);
    return body, |trailer| == 4;
  }

  /** A section header: a new byte order and an empty interface table. */
  method NextSection(handle: FileReader, head: seq<byte>) returns (step: NgStep)
    requires handle.Valid() && |head| == 8
    modifies handle
    ensures handle.Valid() && step == SectionStep(head + old(handle.Rest()))
    ensures step.Go? ==> handle.Rest() == (head + old(handle.Rest()))[step.size..]
  {
    ghost var s := handle.Rest();
    var header := ReadShbHeader(handle, head);
    if header.Err? {
      return Halt(Raised(header.error));
    }
    var (e, total) := header.value;
    var skipped, whole := ReadBody(handle, total - 16);
    if !whole {
      return Halt(Ended);
    }
    assert handle.Rest() == s[4..][total - 12..] == s[total - 8..] == (head + s)[total..];
    return Go(total, NgState(e, []), []);
  }

  /** The dispatch on the type of a block whose body has been read whole. */
  method HandleBody(blockType: u32, body: seq<byte>, st: NgState, size: nat) returns (step: NgStep)
    requires ValidIfaces(st.interfaces)
    ensures step == BodyStep(blockType, body, st, size)
  {
    step := Go(size, st, []);
    if blockType == BT_IDB {
      var iface := ParseIdb(body, st.endian);
      if iface.None? {
        return Halt(Raised(OptionIndex));
      }
      step := Go(size, NgState(st.endian, st.interfaces + [iface.value]), []);
    } else if blockType == BT_EPB {
      step := Go(size, st, OptionSeq(ParseEpb(body, st.endian, st.interfaces)));
    } else if blockType == BT_SPB {
      if |body| >= 4 {
        step := Go(size, st, [Record(0.0, Interface(st.interfaces, 0).linktype, body[4..])]);
      }
    } else if blockType == BT_PB {
      step := Go(size, st, OptionSeq(ParseObsoletePb(body, st.endian, st.interfaces)));
    }
  }

  method NextBlock(handle: FileReader, st: NgState) returns (step: NgStep)
    requires handle.Valid() && ValidIfaces(st.interfaces)
    modifies handle
    ensures handle.Valid() && step == BlockStep(old(handle.Rest()), st)
    ensures step.Go? ==> handle.Rest() == old(handle.Rest())[step.size..]
  {
    ghost var s := handle.Rest();
    var head := handle.Read(8);
    if |head| < 8 {
      return Halt(Ended);
    }
    assert s == head + handle.Rest() && head[..4] == s[..4] && head[4..8] == s[4..8];
    var blockType := U32(st.endian, head[..4]);
    if blockType == BT_SHB {
      step := NextSection(handle, head);
      return;
    }
    var total := U32(st.endian, head[4..8]);
    if total < 12 || total > MAX_BLOCK {
      return Halt(Raised(ImplausibleBlock));
    }
    var body, whole := ReadBody(handle, total - 12);
    if !whole {
      return Halt(Ended);
    }
    assert body == s[8..total - 4] && handle.Rest() == s[total..];
    step := HandleBody(blockType, body, st, total);
  }

  method ReadPcapng(handle: FileReader) returns (out: seq<Record>, stop: Stop)
    requires handle.Valid()
    modifies handle
    ensures Stream(out, stop) == NgRecords(handle.data, NG_START)
  {
    handle.SeekStart();
    out := [];
    var st := NG_START;
    ghost var whole := NgRecords(handle.data, NG_START);
    while true
      invariant handle.Valid() && ValidIfaces(st.interfaces)
      invariant whole == Prepend(out, NgRecords(handle.Rest(), st))
      decreases |handle.Rest()|
    {
      ghost var s := handle.Rest();
      var step := NextBlock(handle, st);
      NgAdvance(whole, out, s, st, step);
      if step.Halt? {
        return out, step.stop;
      }
      st := step.next;
      out := out + step.out;
    }
  }

  /** The generator, run to its end. */
  method ReadPcap(data: seq<byte>) returns (out: seq<Record>, stop: Stop)
    ensures Stream(out, stop) == Capture(data)
  {
    var handle := new FileReader(data);
    var magic := handle.Read(4);
    if |magic| < 4 {
      return [], Raised(TooShort);
    }
    assert magic == data[..4] && handle.Rest() == data[4..];
    if IsClassicMagic(magic) {
      out, stop := ReadClassic(handle, magic);
    } else if IsNgMagic(magic) {
      out, stop := ReadPcapng(handle);
    } else {
      return [], Raised(BadMagic);
    }
  }
}
