/** A writer of pcapng files, and the proof that the reader recovers exactly what it wrote. */
module PcapNgRoundTrip {
  import opened Wrappers
  import opened Bytes
  import opened PcapReader

  datatype Opt = Opt(code: u16, value: seq<byte>)

  datatype Block =
    | IdbBlock(linktype: u16, reserved: seq<byte>, options: seq<Opt>)
    | EpbBlock(epbIface: u32, high: u32, low: u32, origLen: u32, frame: seq<byte>, trailer: seq<byte>)
    | PbBlock(pbIface: u16, drops: u16, high: u32, low: u32, origLen: u32, frame: seq<byte>, trailer: seq<byte>)
    | SpbBlock(origLen: u32, frame: seq<byte>)
    | OtherBlock(blockType: u32, body: seq<byte>)

  /** A section header (its fields after the byte-order magic are free) and its blocks. */
  datatype Section = Section(endian: Endian, header: seq<byte>, blocks: seq<Block>)

  // ---------------------------------------------------------------------------
  // Encoding
  // ---------------------------------------------------------------------------

  predicate WfOpt(o: Opt) { |o.value| < 0x1_0000 }

  function EncodeOpt(e: Endian, o: Opt): (s: seq<byte>)
    requires WfOpt(o)
    ensures |s| >= 4
  {
    Put16(e, o.code) + Put16(e, |o.value|) + (o.value + Zeros(Pad4(|o.value|)))
  }

  function EncodeOpts(e: Endian, os: seq<Opt>): seq<byte>
    requires forall o :: o in os ==> WfOpt(o)
  {
    if os == [] then [] else EncodeOpt(e, os[0]) + EncodeOpts(e, os[1..])
  }

  function Padded(frame: seq<byte>): seq<byte> { frame + Zeros(Pad4(|frame|)) }

  function TypeOf(b: Block): u32 {
    match b
    case IdbBlock(_, _, _) => 1
    case EpbBlock(_, _, _, _, _, _) => 6
    case PbBlock(_, _, _, _, _, _, _) => 2
    case SpbBlock(_, _) => 3
    case OtherBlock(t, _) => t
  }

  predicate WfFields(b: Block) {
    match b
    case IdbBlock(_, reserved, options) => |reserved| == 6 && forall o :: o in options ==> WfOpt(o)
    case EpbBlock(_, _, _, _, frame, _) => |frame| <= MAX_BLOCK
    case PbBlock(_, _, _, _, _, frame, _) => |frame| <= MAX_BLOCK
    case SpbBlock(_, _) => true
    case OtherBlock(t, _) => t !in {0x0A0D_0D0A, 1, 2, 3, 6}
  }

  function Body(e: Endian, b: Block): seq<byte>
    requires WfFields(b)
  {
    match b
    case IdbBlock(linktype, reserved, options) => Put16(e, linktype) + reserved + EncodeOpts(e, options)
    case EpbBlock(iface, high, low, origLen, frame, trailer) =>
      Header5(Put32(e, iface), Put32(e, high), Put32(e, low), Put32(e, |frame|), Put32(e, origLen)) + (frame + trailer)
    case PbBlock(iface, drops, high, low, origLen, frame, trailer) =>
      Header5(Put16(e, iface) + Put16(e, drops), Put32(e, high), Put32(e, low), Put32(e, |frame|), Put32(e, origLen))
      + (frame + trailer)
    case SpbBlock(origLen, frame) => Put32(e, origLen) + Padded(frame)
    case OtherBlock(_, body) => body
  }

  function Header5(a: seq<byte>, b: seq<byte>, c: seq<byte>, d: seq<byte>, f: seq<byte>): (s: seq<byte>)
    requires |a| == |b| == |c| == |d| == |f| == 4
    ensures |s| == 20 && s[..4] == a && s[4..8] == b && s[8..12] == c && s[12..16] == d
  {
    a + b + c + d + f
  }

  /** Fields in range, and a block within the reader's size cap. */
  predicate WfBlock(b: Block) {
    WfFields(b) && |Body(Little, b)| + 12 <= MAX_BLOCK && |Body(Big, b)| + 12 <= MAX_BLOCK
  }

  predicate WfSection(s: Section) {
    |s.header| + 16 <= MAX_BLOCK && forall b :: b in s.blocks ==> WfBlock(b)
  }

  /** A body between its type and length fields. */
  function Framed(e: Endian, t: u32, body: seq<byte>): seq<byte>
    requires |body| + 12 <= MAX_BLOCK
  {
    Put32(e, t) + Put32(e, |body| + 12) + (body + Put32(e, |body| + 12))
  }

  function EncodeBlock(e: Endian, b: Block): seq<byte>
    requires WfBlock(b)
  {
    Framed(e, TypeOf(b), Body(e, b))
  }

  function EncodeBlocks(e: Endian, bs: seq<Block>): seq<byte>
    requires forall b :: b in bs ==> WfBlock(b)
  {
    if bs == [] then [] else EncodeBlock(e, bs[0]) + EncodeBlocks(e, bs[1..])
  }

  function EncodeHeader(s: Section): seq<byte>
    requires WfSection(s)
  {
    var total := |s.header| + 16;
    Put32(s.endian, 0x0A0D_0D0A) + Put32(s.endian, total) + Put32(s.endian, 0x1A2B_3C4D) + (s.header + Put32(s.endian, total))
  }

  function EncodeFile(ss: seq<Section>): seq<byte>
    requires forall s :: s in ss ==> WfSection(s)
  {
    if ss == [] then []
    else EncodeHeader(ss[0]) + (EncodeBlocks(ss[0].endian, ss[0].blocks) + EncodeFile(ss[1..]))
  }

  // ---------------------------------------------------------------------------
  // Meaning
  // ---------------------------------------------------------------------------

  function Power(base: nat, n: nat): nat { if n == 0 then 1 else base * Power(base, n - 1) }

  /** Ticks in a second: a power of ten, or with the high bit set of two. */
  function Ticks(resolution: byte): nat {
    if resolution < 128 then Power(10, resolution) else Power(2, resolution - 128)
  }

  /** The ticks an option list announces: the first if_tsresol option before any end-of-options marker
      decides, and microseconds are the default. */
  function AnnouncedTicks(os: seq<Opt>): nat {
    if os == [] || os[0].code == 0 then 1000000
    else if os[0].code == 9 && os[0].value != [] then Ticks(os[0].value[0])
    else AnnouncedTicks(os[1..])
  }

  lemma {:induction false} PowIsPower(base: nat, n: nat)
    requires base > 0
    ensures Power(base, n) > 0 && Pow(base as real, n) == Power(base, n) as real
  {
    if n > 0 {
      PowIsPower(base, n - 1);
      RealProduct(base, Power(base, n - 1));
    }
  }

  lemma RealProduct(a: nat, b: nat)
    ensures (a * b) as real == a as real * b as real
    ensures a > 0 && b > 0 ==> a * b > 0
  {
  }

  /** The divisor of an if_tsresol octet is its number of ticks. */
  lemma ResolutionTicks(resolution: byte)
    ensures Ticks(resolution) > 0 && Resolution(resolution) == Ticks(resolution) as real
  {
    if resolution < 128 {
      PowIsPower(10, resolution);
    } else {
      PowIsPower(2, resolution - 128);
    }
  }

  lemma {:induction false} TicksPositive(os: seq<Opt>)
    ensures AnnouncedTicks(os) > 0
  {
    if os != [] && os[0].code == 9 && os[0].value != [] {
      ResolutionTicks(os[0].value[0]);
    } else if os != [] {
      TicksPositive(os[1..]);
    }
  }

  function Announced(os: seq<Opt>): (d: real)
    ensures d > 0.0
  {
    TicksPositive(os);
    AnnouncedTicks(os) as real
  }

  /** The interfaces declared by these blocks, in order. */
  function Declared(bs: seq<Block>): (table: seq<Iface>)
    ensures ValidIfaces(table)
  {
    if bs == [] then []
    else
      var before := Declared(bs[..|bs| - 1]);
      var b := bs[|bs| - 1];
      if b.IdbBlock? then before + [Iface(b.linktype, Announced(b.options))] else before
  }

  /** The packets in one block, given the interfaces declared before it. */
  function PacketsOf(b: Block, interfaces: seq<Iface>): seq<Record>
    requires ValidIfaces(interfaces)
  {
    match b
    case EpbBlock(i, high, low, _, frame, _) =>
      [Record(Timestamp(high, low, Interface(interfaces, i).divisor), Interface(interfaces, i).linktype, frame)]
    case PbBlock(i, _, high, low, _, frame, _) =>
      [Record(Timestamp(high, low, Interface(interfaces, i).divisor), Interface(interfaces, i).linktype, frame)]
    case SpbBlock(_, frame) => [Record(0.0, Interface(interfaces, 0).linktype, Padded(frame))]
    case _ => []
  }

  /** The packets of blocks k and after; each names an interface declared earlier in the section. */
  function PacketsFrom(bs: seq<Block>, k: nat): seq<Record>
    requires k <= |bs|
    decreases |bs| - k
  {
    if k == |bs| then [] else PacketsOf(bs[k], Declared(bs[..k])) + PacketsFrom(bs, k + 1)
  }

  function Packets(ss: seq<Section>): seq<Record> {
    if ss == [] then [] else PacketsFrom(ss[0].blocks, 0) + Packets(ss[1..])
  }

  // ---------------------------------------------------------------------------
  // Options
  // ---------------------------------------------------------------------------

  lemma OptPrefix(e: Endian, o: Opt, rest: seq<byte>)
    requires WfOpt(o)
    ensures var s := EncodeOpt(e, o) + rest;
            && |s| >= 4
            && U16(e, s[..2]) == o.code
            && U16(e, s[2..4]) == |o.value|
            && Slice(s, 4, 4 + |o.value|) == o.value
            && Drop(s, 4 + |o.value| + Pad4(|o.value|)) == rest
  {
    var s := EncodeOpt(e, o) + rest;
    Put16RoundTrip(e, o.code);
    Put16RoundTrip(e, |o.value|);
    assert s[..2] == Put16(e, o.code);
    assert s[2..4] == Put16(e, |o.value|);
  }

  /** One whole option in front of anything settles the clock or is stepped over. */
  lemma DivisorStep(e: Endian, o: Opt, rest: seq<byte>, all: seq<byte>)
    requires WfOpt(o) && all == EncodeOpt(e, o) + rest
    ensures DivisorOf(all, e)
         == if o.code == 0 then Some(MICROS)
            else if o.code == 9 && o.value != [] then Some(Ticks(o.value[0]) as real)
            else DivisorOf(rest, e)
  {
    OptPrefix(e, o, rest);
    if o.value != [] {
      ResolutionTicks(o.value[0]);
    }
  }

  lemma {:induction false} OptionsRoundTrip(e: Endian, os: seq<Opt>)
    requires forall o :: o in os ==> WfOpt(o)
    ensures DivisorOf(EncodeOpts(e, os), e) == Some(Announced(os))
  {
    if os != [] {
      DivisorStep(e, os[0], EncodeOpts(e, os[1..]), EncodeOpts(e, os));
      OptionsRoundTrip(e, os[1..]);
    }
  }

  /** An option and the octets that pad it, which need not be zeros. */
  datatype PaddedOpt = PaddedOpt(opt: Opt, pad: seq<byte>)

  predicate WfPadded(o: PaddedOpt) { WfOpt(o.opt) && |o.pad| == Pad4(|o.opt.value|) }

  predicate AllPadded(os: seq<PaddedOpt>) { forall k :: 0 <= k < |os| ==> WfPadded(os[k]) }

  function PaddedBytes(e: Endian, o: PaddedOpt): (s: seq<byte>)
    requires WfPadded(o)
    ensures |s| >= 4
  {
    Put16(e, o.opt.code) + Put16(e, |o.opt.value|) + (o.opt.value + o.pad)
  }

  function AllBytes(e: Endian, os: seq<PaddedOpt>): seq<byte>
    requires AllPadded(os)
  {
    if os == [] then [] else PaddedBytes(e, os[0]) + AllBytes(e, os[1..])
  }

  predicate Settles(o: Opt) { o.code == 0 || (o.code == 9 && o.value != []) }

  /** No option settles the clock before the list is read to its end. */
  predicate Undecided(os: seq<PaddedOpt>) { forall k :: 0 <= k < |os| ==> !Settles(os[k].opt) }

  /** The header of a clock option with nothing behind it. */
  function CutClock(e: Endian, length: u16): seq<byte> { Put16(e, 9) + Put16(e, length) }

  lemma PaddedStep(e: Endian, o: PaddedOpt, rest: seq<byte>, all: seq<byte>)
    requires WfPadded(o) && !Settles(o.opt) && all == PaddedBytes(e, o) + rest
    ensures DivisorOf(all, e) == DivisorOf(rest, e)
  {
    var length := |o.opt.value|;
    Put16RoundTrip(e, o.opt.code);
    Put16RoundTrip(e, length);
    assert all[..2] == Put16(e, o.opt.code) && all[2..4] == Put16(e, length);
    assert Drop(all, 4 + length + Pad4(length)) == rest;
  }

  lemma CutHeader(e: Endian, length: u16)
    requires length >= 1
    ensures DivisorOf(CutClock(e, length), e) == None
  {
    var s := CutClock(e, length);
    Put16RoundTrip(e, 9);
    Put16RoundTrip(e, length);
    assert s[..2] == Put16(e, 9) && s[2..4] == Put16(e, length);
  }

  lemma {:induction false} UndecidedStep(e: Endian, os: seq<PaddedOpt>, length: u16)
    requires length >= 1 && AllPadded(os) && Undecided(os)
    ensures DivisorOf(AllBytes(e, os) + CutClock(e, length), e) == None
  {
    var tail := CutClock(e, length);
    if os == [] {
      assert [] + tail == tail;
      CutHeader(e, length);
    } else {
      var rest, all := AllBytes(e, os[1..]) + tail, AllBytes(e, os) + tail;
      assert all == PaddedBytes(e, os[0]) + rest;
      assert !Settles(os[0].opt);
      PaddedStep(e, os[0], rest, all);
      UndecidedStep(e, os[1..], length);
    }
  }

  /** Whole undecided options, and then a clock option cut off right behind its header. */
  predicate EndsInClock(options: seq<byte>, e: Endian, os: seq<PaddedOpt>, length: u16) {
    AllPadded(os) && Undecided(os) && length >= 1 && options == AllBytes(e, os) + CutClock(e, length)
  }

  lemma PutBack(e: Endian, s: seq<byte>)
    requires |s| == 2
    ensures Put16(e, U16(e, s)) == s
  {
    var a: int, b: int := s[0], s[1];
    assert (a * 0x100 + b) / 0x100 == a && (a * 0x100 + b) % 0x100 == b;
    assert (b * 0x100 + a) / 0x100 == b && (b * 0x100 + a) % 0x100 == a;
  }

  /** The first option of a list whose clock is cut off further on. */
  lemma FirstPadded(options: seq<byte>, e: Endian) returns (o: PaddedOpt)
    requires |options| >= 4
    requires var length := U16(e, options[2..4]); 4 + length + Pad4(length) <= |options|
    ensures WfPadded(o) && o.opt.code == U16(e, options[..2]) && |o.opt.value| == U16(e, options[2..4])
    ensures options == PaddedBytes(e, o) + Drop(options, 4 + |o.opt.value| + Pad4(|o.opt.value|))
  {
    var code, length := U16(e, options[..2]), U16(e, options[2..4]);
    var size := 4 + length + Pad4(length);
    o := PaddedOpt(Opt(code, options[4..4 + length]), options[4 + length..size]);
    PutBack(e, options[..2]);
    PutBack(e, options[2..4]);
    assert options == options[..2] + options[2..4] + (options[4..4 + length] + options[4 + length..size]) + options[size..];
  }

  lemma CutHere(options: seq<byte>, e: Endian, length: u16)
    requires DivisorOf(options, e) == None && U16(e, options[..2]) == 9 && length == U16(e, options[2..4]) && length >= 1
    ensures EndsInClock(options, e, [], length)
  {
    assert Slice(options, 4, 4 + length) == [];
    PutBack(e, options[..2]);
    PutBack(e, options[2..4]);
    assert options == [] + (options[..2] + options[2..4]);
  }

  lemma CutBehind(options: seq<byte>, e: Endian, o: PaddedOpt, rest: seq<byte>, others: seq<PaddedOpt>, length: u16)
    requires WfPadded(o) && !Settles(o.opt) && options == PaddedBytes(e, o) + rest && EndsInClock(rest, e, others, length)
    ensures EndsInClock(options, e, [o] + others, length)
  {
    var os := [o] + others;
    assert os[1..] == others;
    assert AllBytes(e, os) == PaddedBytes(e, o) + AllBytes(e, others);
  }

  /** The options go on behind one that does not settle the clock. */
  lemma CutGoesOn(options: seq<byte>, e: Endian, length: u16, rest: seq<byte>)
    requires DivisorOf(options, e) == None && length == U16(e, options[2..4])
    requires U16(e, options[..2]) != 9 || length == 0
    requires rest == Drop(options, 4 + length + Pad4(length))
    ensures U16(e, options[..2]) != 0 && DivisorOf(rest, e) == None && |rest| >= 4
    ensures 4 + length + Pad4(length) <= |options|
  {
  }

  lemma {:induction false} FindCutClock(options: seq<byte>, e: Endian) returns (os: seq<PaddedOpt>, length: u16)
    requires DivisorOf(options, e) == None
    ensures EndsInClock(options, e, os, length)
    decreases |options|
  {
    length := U16(e, options[2..4]);
    if U16(e, options[..2]) == 9 && length >= 1 {
      CutHere(options, e, length);
      os := [];
    } else {
      var rest := Drop(options, 4 + length + Pad4(length));
      CutGoesOn(options, e, length, rest);
      var o := FirstPadded(options, e);
      os, length := FindCutClock(rest, e);
      CutBehind(options, e, o, rest, os, length);
      os := [o] + os;
    }
  }

  /** For every octet string: reading the options raises IndexError exactly when whole options, padded with
      anything, none of which settles the clock, are followed by a clock option cut off behind its header. */
  lemma CutResolution(options: seq<byte>, e: Endian)
    ensures DivisorOf(options, e) == None <==> exists os, length :: EndsInClock(options, e, os, length)
  {
    if DivisorOf(options, e) == None {
      var os, length := FindCutClock(options, e);
    } else {
      forall os, length | EndsInClock(options, e, os, length) ensures false {
        UndecidedStep(e, os, length);
      }
    }
  }

  // ---------------------------------------------------------------------------
  // Blocks
  // ---------------------------------------------------------------------------

  lemma IdbBody(e: Endian, b: Block)
    requires b.IdbBlock? && WfFields(b)
    ensures InterfaceOf(Body(e, b), e) == Some(Iface(b.linktype, Announced(b.options)))
  {
    OptionsRoundTrip(e, b.options);
    Put16RoundTrip(e, b.linktype);
    assert Body(e, b)[..2] == Put16(e, b.linktype);
    assert Body(e, b)[8..] == EncodeOpts(e, b.options);
  }

  lemma HeaderFields(head: seq<byte>, frame: seq<byte>, trailer: seq<byte>)
    requires |head| == 20
    ensures var body := head + (frame + trailer);
            && body[..4] == head[..4] && body[4..8] == head[4..8] && body[8..12] == head[8..12]
            && body[12..16] == head[12..16] && body[..2] == head[..2]
            && Slice(body, 20, 20 + |frame|) == frame
  {
  }

  lemma EpbBody(e: Endian, b: Block, interfaces: seq<Iface>)
    requires b.EpbBlock? && WfFields(b) && ValidIfaces(interfaces)
    ensures OptionSeq(ParseEpb(Body(e, b), e, interfaces)) == PacketsOf(b, interfaces)
  {
    var head := Header5(Put32(e, b.epbIface), Put32(e, b.high), Put32(e, b.low), Put32(e, |b.frame|), Put32(e, b.origLen));
    HeaderFields(head, b.frame, b.trailer);
    Put32RoundTrip(e, b.epbIface);
    Put32RoundTrip(e, b.high);
    Put32RoundTrip(e, b.low);
    Put32RoundTrip(e, |b.frame|);
  }

  lemma PbBody(e: Endian, b: Block, interfaces: seq<Iface>)
    requires b.PbBlock? && WfFields(b) && ValidIfaces(interfaces)
    ensures OptionSeq(ParseObsoletePb(Body(e, b), e, interfaces)) == PacketsOf(b, interfaces)
  {
    var names := Put16(e, b.pbIface) + Put16(e, b.drops);
    var head := Header5(names, Put32(e, b.high), Put32(e, b.low), Put32(e, |b.frame|), Put32(e, b.origLen));
    HeaderFields(head, b.frame, b.trailer);
    assert head[..2] == head[..4][..2] == Put16(e, b.pbIface);
    Put16RoundTrip(e, b.pbIface);
    Put32RoundTrip(e, b.high);
    Put32RoundTrip(e, b.low);
    Put32RoundTrip(e, |b.frame|);
  }

  /** A packet body short of its twenty fixed octets, or of the octets it says were captured, gives no record;
      an interface body short of eight is Ethernet in microseconds. */
  lemma ShortBodies(body: seq<byte>, e: Endian, interfaces: seq<Iface>)
    requires ValidIfaces(interfaces)
    ensures |body| < 20 || 20 + U32(e, body[12..16]) > |body| ==>
      ParseEpb(body, e, interfaces) == None && ParseObsoletePb(body, e, interfaces) == None
    ensures |body| < 8 ==> InterfaceOf(body, e) == Some(Iface(1, 1000000.0))
  {
  }

  function After(b: Block, st: NgState): (next: NgState)
    requires ValidIfaces(st.interfaces)
    ensures ValidIfaces(next.interfaces)
  {
    NgState(st.endian, st.interfaces + Declared([b]))
  }

  lemma AfterIs(b: Block, st: NgState)
    requires ValidIfaces(st.interfaces)
    ensures After(b, st) == if b.IdbBlock? then st.(interfaces := st.interfaces + [Iface(b.linktype, Announced(b.options))]) else st
  {
    assert [b][..|[b]| - 1] == [];
    assert Declared([b]) == if b.IdbBlock? then [Iface(b.linktype, Announced(b.options))] else [];
    assert st.interfaces + [] == st.interfaces;
  }

  lemma BodyRoundTrip(b: Block, st: NgState, size: nat)
    requires WfFields(b) && ValidIfaces(st.interfaces)
    ensures BodyStep(TypeOf(b), Body(st.endian, b), st, size)
         == Go(size, After(b, st), PacketsOf(b, st.interfaces))
  {
    AfterIs(b, st);
    match b
    case IdbBlock(_, _, _) => IdbBody(st.endian, b);
    case EpbBlock(_, _, _, _, _, _) => EpbBody(st.endian, b, st.interfaces);
    case PbBlock(_, _, _, _, _, _, _) => PbBody(st.endian, b, st.interfaces);
    case SpbBlock(_, frame) => assert Body(st.endian, b)[4..] == Padded(frame);
    case OtherBlock(_, _) =>
  }

  lemma FrameFields(a: seq<byte>, b: seq<byte>, body: seq<byte>, c: seq<byte>, rest: seq<byte>)
    requires |a| == |b| == |c| == 4
    ensures var s := a + b + (body + c) + rest;
            |s| >= |body| + 12 && s[..4] == a && s[4..8] == b && s[8..|body| + 8] == body && s[|body| + 12..] == rest
  {
  }

  /** A framed body in front of anything is taken whole. */
  lemma FramedStep(t: u32, body: seq<byte>, st: NgState, rest: seq<byte>)
    requires t != BT_SHB && |body| + 12 <= MAX_BLOCK && ValidIfaces(st.interfaces)
    ensures BlockStep(Framed(st.endian, t, body) + rest, st) == BodyStep(t, body, st, |body| + 12)
    ensures (Framed(st.endian, t, body) + rest)[|body| + 12..] == rest
  {
    var size := Put32(st.endian, |body| + 12);
    FrameFields(Put32(st.endian, t), size, body, size, rest);
    Put32RoundTrip(st.endian, t);
    Put32RoundTrip(st.endian, |body| + 12);
  }

  lemma NgGo(s: seq<byte>, st: NgState, size: nat, next: NgState, out: seq<Record>)
    requires ValidIfaces(st.interfaces) && ValidIfaces(next.interfaces) && BlockStep(s, st) == Go(size, next, out)
    ensures NgRecords(s, st) == Prepend(out, NgRecords(s[size..], next))
  {
  }

  lemma FramedGo(t: u32, body: seq<byte>, st: NgState, rest: seq<byte>, next: NgState, out: seq<Record>)
    requires t != BT_SHB && |body| + 12 <= MAX_BLOCK && ValidIfaces(st.interfaces)
    requires BodyStep(t, body, st, |body| + 12) == Go(|body| + 12, next, out)
    ensures var s := Framed(st.endian, t, body) + rest;
            |s| >= |body| + 12 && s[|body| + 12..] == rest && BlockStep(s, st) == Go(|body| + 12, next, out)
  {
    FramedStep(t, body, st, rest);
    FramedLength(st.endian, t, body, rest);
  }

  lemma EncodedStep(b: Block, st: NgState, rest: seq<byte>)
    requires WfBlock(b) && ValidIfaces(st.interfaces)
    ensures var s, size := EncodeBlock(st.endian, b) + rest, |Body(st.endian, b)| + 12;
            |s| >= size && s[size..] == rest
            && BlockStep(s, st) == Go(size, After(b, st), PacketsOf(b, st.interfaces))
  {
    BodyRoundTrip(b, st, |Body(st.endian, b)| + 12);
    FramedGo(TypeOf(b), Body(st.endian, b), st, rest, After(b, st), PacketsOf(b, st.interfaces));
  }

  lemma FramedLength(e: Endian, t: u32, body: seq<byte>, rest: seq<byte>)
    requires |body| + 12 <= MAX_BLOCK
    ensures |Framed(e, t, body) + rest| == |body| + 12 + |rest|
  {
  }

  /** One encoded block in front of anything is consumed whole and means what it was built from. */
  lemma BlockRoundTrip(b: Block, st: NgState, rest: seq<byte>)
    requires WfBlock(b) && ValidIfaces(st.interfaces)
    ensures NgRecords(EncodeBlock(st.endian, b) + rest, st)
         == Prepend(PacketsOf(b, st.interfaces), NgRecords(rest, After(b, st)))
  {
    EncodedStep(b, st, rest);
    NgGo(EncodeBlock(st.endian, b) + rest, st, |Body(st.endian, b)| + 12, After(b, st), PacketsOf(b, st.interfaces));
  }

  /** Blocks of an unknown type are invisible wherever a block may start, whatever follows them. */
  lemma UnknownBlockInvisible(b: Block, st: NgState, rest: seq<byte>)
    requires b.OtherBlock? && WfBlock(b) && ValidIfaces(st.interfaces)
    ensures NgRecords(EncodeBlock(st.endian, b) + rest, st) == NgRecords(rest, st)
  {
    assert After(b, st) == st by {
      assert [b][..0] == [];
      assert Declared([b]) == [];
      assert st.interfaces + [] == st.interfaces;
    }
    BlockRoundTrip(b, st, rest);
    PrependTwice([], [], NgRecords(rest, st));
  }

  lemma DeclaredStep(bs: seq<Block>, k: nat)
    requires k < |bs|
    ensures Declared(bs[..k + 1]) == Declared(bs[..k]) + Declared([bs[k]])
  {
    assert bs[..k + 1][..k] == bs[..k];
    assert [bs[k]][..0] == [];
  }

  lemma PrependTwice(a: seq<Record>, b: seq<Record>, s: Stream)
    ensures Prepend(a, Prepend(b, s)) == Prepend(a + b, s)
    ensures Prepend([], s) == s
  {
    assert a + (b + s.records) == (a + b) + s.records;
    assert [] + s.records == s.records;
  }

  lemma EncodeBlocksSplit(e: Endian, bs: seq<Block>, k: nat, rest: seq<byte>)
    requires k < |bs| && forall b :: b in bs ==> WfBlock(b)
    ensures EncodeBlocks(e, bs[k..]) + rest == EncodeBlock(e, bs[k]) + (EncodeBlocks(e, bs[k + 1..]) + rest)
  {
    assert bs[k..][0] == bs[k] && bs[k..][1..] == bs[k + 1..];
    JoinThree(EncodeBlock(e, bs[k]), EncodeBlocks(e, bs[k + 1..]), rest);
  }

  lemma JoinThree(a: seq<byte>, b: seq<byte>, c: seq<byte>)
    ensures (a + b) + c == a + (b + c)
  {
  }

  lemma {:induction false} BlocksRoundTrip(e: Endian, bs: seq<Block>, k: nat, rest: seq<byte>)
    requires k <= |bs| && forall b :: b in bs ==> WfBlock(b)
    ensures NgRecords(EncodeBlocks(e, bs[k..]) + rest, NgState(e, Declared(bs[..k])))
         == Prepend(PacketsFrom(bs, k), NgRecords(rest, NgState(e, Declared(bs))))
    decreases |bs| - k
  {
    if k == |bs| {
      assert bs[..k] == bs && EncodeBlocks(e, bs[k..]) + rest == rest;
      PrependTwice([], [], NgRecords(rest, NgState(e, Declared(bs))));
    } else {
      var here := PacketsOf(bs[k], Declared(bs[..k]));
      EncodeBlocksSplit(e, bs, k, rest);
      DeclaredStep(bs, k);
      BlockRoundTrip(bs[k], NgState(e, Declared(bs[..k])), EncodeBlocks(e, bs[k + 1..]) + rest);
      BlocksRoundTrip(e, bs, k + 1, rest);
      PrependTwice(here, PacketsFrom(bs, k + 1), NgRecords(rest, NgState(e, Declared(bs))));
    }
  }

  // ---------------------------------------------------------------------------
  // Sections and files
  // ---------------------------------------------------------------------------

  /** The section-header type reads the same in both byte orders, so the reader recognises it
      before it knows which order the section is in. */
  lemma SectionTypeIsPalindrome(a: Endian, b: Endian)
    ensures U32(a, Put32(b, BT_SHB)) == BT_SHB
  {
    assert Put32(Little, BT_SHB) == Put32(Big, BT_SHB);
    Put32RoundTrip(a, BT_SHB);
  }

  /** The byte-order magic is not, so it tells the two orders apart. */
  lemma MagicTellsOrder(e: Endian)
    ensures (U32(Little, Put32(e, SHB_MAGIC)) == SHB_MAGIC) <==> e.Little?
  {
    Put32RoundTrip(e, SHB_MAGIC);
  }

  lemma HeaderStep(s: Section, st: NgState, rest: seq<byte>)
    requires WfSection(s) && ValidIfaces(st.interfaces)
    ensures BlockStep(EncodeHeader(s) + rest, st) == Go(|s.header| + 16, NgState(s.endian, []), [])
    ensures (EncodeHeader(s) + rest)[|s.header| + 16..] == rest
  {
    var data, total := EncodeHeader(s) + rest, |s.header| + 16;
    assert data[..4] == Put32(s.endian, BT_SHB);
    assert data[4..8] == Put32(s.endian, total);
    assert data[8..12] == Put32(s.endian, SHB_MAGIC);
    SectionTypeIsPalindrome(st.endian, s.endian);
    MagicTellsOrder(s.endian);
    Put32RoundTrip(s.endian, total);
    Put32RoundTrip(s.endian, SHB_MAGIC);
  }

  lemma {:induction false} SectionsRoundTrip(ss: seq<Section>, st: NgState)
    requires (forall s :: s in ss ==> WfSection(s)) && ValidIfaces(st.interfaces)
    ensures NgRecords(EncodeFile(ss), st) == Stream(Packets(ss), Ended)
  {
    if ss != [] {
      var s, rest := ss[0], EncodeFile(ss[1..]);
      assert WfSection(s);
      var tail, open := EncodeBlocks(s.endian, s.blocks) + rest, NgState(s.endian, []);
      HeaderStep(s, st, tail);
      NgGo(EncodeHeader(s) + tail, st, |s.header| + 16, open, []);
      assert s.blocks[0..] == s.blocks && s.blocks[..0] == [];
      BlocksRoundTrip(s.endian, s.blocks, 0, rest);
      SectionsRoundTrip(ss[1..], NgState(s.endian, Declared(s.blocks)));
      PrependTwice([], PacketsFrom(s.blocks, 0), Stream(Packets(ss[1..]), Ended));
    }
  }

  /** Reading back any sections, each in its own byte order, yields exactly the packets written,
      in order, each with the linktype and clock of the interface it names in its own section. */
  lemma NgRoundTrip(ss: seq<Section>)
    requires ss != [] && forall s :: s in ss ==> WfSection(s)
    ensures Capture(EncodeFile(ss)) == Stream(Packets(ss), Ended)
  {
    var magic := EncodeFile(ss)[..4];
    assert magic == Put32(ss[0].endian, BT_SHB);
    assert magic[0] == 0x0A;
    SectionTypeIsPalindrome(Little, ss[0].endian);
    SectionsRoundTrip(ss, NG_START);
  }

  /** A Simple Packet Block hands back its padding too, so the frame survives exactly when its
      length is a multiple of four. */
  lemma SimplePacketExact(b: Block, interfaces: seq<Iface>)
    requires b.SpbBlock? && ValidIfaces(interfaces)
    ensures PacketsOf(b, interfaces)[0].frame == b.frame <==> |b.frame| % 4 == 0
  {
    assert |Padded(b.frame)| == |b.frame| + Pad4(|b.frame|);
    if |b.frame| % 4 == 0 {
      assert Padded(b.frame) == b.frame;
    }
  }
}
