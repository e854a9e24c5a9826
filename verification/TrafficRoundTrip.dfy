/** Encoded frames carry valid checksums, and decoding undoes encoding. */
module TrafficRoundTrip {
  import opened Wrappers
  import opened Bytes
  import opened Checksum
  import opened OtTraffic
  import opened Packet
  import PacketTheorems

  // ---------------------------------------------------------------------------
  // Checksums
  // ---------------------------------------------------------------------------

  /** A receiver recomputing the header checksum of RFC 791 gets 0. */
  lemma IpChecksumValid(src: seq<byte>, dst: seq<byte>, total: u16)
    ensures ChecksumOf(IpHeader(src, dst, total)) == 0
  {
    var bare := BareIpHeader(src, dst, total);
    assert bare[10] == 0 && bare[11] == 0;
    FilledChecksumIsZero(bare, 10);
  }

  lemma FilledBehind(pre: seq<byte>, data: seq<byte>, at: nat, sum: u16)
    requires at + 2 <= |data|
    ensures Filled(pre + data, |pre| + at, sum) == pre + Filled(data, at, sum)
  {
  }

  /** What the receiver of a segment puts in front of it (RFC 9293, section 3.1): the addresses, a zero octet,
      the protocol number 6 and the length. */
  function ReceiverHeader(src: seq<byte>, dst: seq<byte>, length: u16): seq<byte> {
    src + dst + [0, 6, length / 256, length % 256]
  }

  /** The receiver's test of a segment. */
  predicate Passes(src: seq<byte>, dst: seq<byte>, segment: seq<byte>)
    requires |segment| < 0x1_0000
  {
    ChecksumOf(ReceiverHeader(src, dst, |segment|) + segment) == 0
  }

  lemma SameHeader(src: seq<byte>, dst: seq<byte>, length: u16)
    ensures PseudoHeader(src, dst, length) == ReceiverHeader(src, dst, length)
  {
  }

  /** A segment filled in behind any header. */
  lemma FilledSegmentValid(pre: seq<byte>, bare: seq<byte>)
    requires |bare| >= 20 && bare[16] == 0 && bare[17] == 0
    ensures ChecksumOf(pre + Filled(bare, 16, ChecksumOf(pre + bare))) == 0
       <==> |pre| % 2 == 0 || WordSum(Even(pre + bare)) % 257 == 0
  {
    var data := pre + bare;
    assert data[|pre| + 16] == bare[16] && data[|pre| + 17] == bare[17];
    if |pre| % 2 == 0 {
      FilledChecksumIsZero(data, |pre| + 16);
    } else {
      OddOffsetExact(data, |pre| + 16);
    }
    FilledBehind(pre, bare, 16, ChecksumOf(data));
  }

  /** The receiver's test of RFC 9293 over pseudo-header and segment passes, for every payload, odd or
      even, when the two addresses have an even number of octets together, as two IPv4 addresses have. When
      they have an odd number the field straddles two words, and the checksum works out exactly when 257
      divides the sum it was computed from. */
  lemma TcpChecksumValid(src: seq<byte>, dst: seq<byte>, sport: u16, dport: u16, flags: string, payload: seq<byte>)
    requires |payload| <= MAX_PAYLOAD
    ensures Passes(src, dst, Segment(src, dst, sport, dport, flags, payload))
       <==> (|src| + |dst|) % 2 == 0
            || WordSum(Even(ReceiverHeader(src, dst, 20 + |payload|) + BareSegment(sport, dport, flags, payload))) % 257 == 0
  {
    var bare := BareSegment(sport, dport, flags, payload);
    SameHeader(src, dst, 20 + |payload|);
    assert bare[16] == 0 && bare[17] == 0;
    FilledSegmentValid(ReceiverHeader(src, dst, 20 + |payload|), bare);
  }

  /** The receiver's test of an encoded exchange. */
  predicate Accepted(x: Exchange)
    requires Encodable(x)
  {
    var src, dst := AddressOctets(x.src), AddressOctets(x.dst);
    Passes(src, dst, Segment(src, dst, x.sport, x.dport, x.flags, x.payload))
  }

  lemma NextPort(pre: seq<byte>, sport: u16, dport: u16, flags: string, payload: seq<byte>)
    requires dport % 0x100 < 0xFF
    ensures var sum := WordSum(Even(pre + BareSegment(sport, dport, flags, payload)));
            var next := WordSum(Even(pre + BareSegment(sport, dport + 1, flags, payload)));
            next == sum + 0x100 || next == sum + 1
  {
    var bare, k := BareSegment(sport, dport, flags, payload), |pre| + 3;
    var port: int := dport;
    assert (port + 1) / 0x100 == port / 0x100 && (port + 1) % 0x100 == port % 0x100 + 1;
    assert BareSegment(sport, dport + 1, flags, payload) == bare[3 := port % 0x100 + 1];
    var data := pre + bare;
    assert data[k] == bare[3] == port % 0x100;
    assert pre + bare[3 := port % 0x100 + 1] == data[k := port % 0x100 + 1];
    assert Even(data[k := port % 0x100 + 1]) == Even(data)[k := port % 0x100 + 1];
    WordSumOctet(Even(data), k, port % 0x100 + 1);
  }

  lemma NotBoth(sum: nat, next: nat)
    requires next == sum + 0x100 || next == sum + 1
    ensures sum % 257 != 0 || next % 257 != 0
  {
  }

  lemma NextPortFails(src: seq<byte>, dst: seq<byte>, sport: u16, dport: u16, next: u16, flags: string, payload: seq<byte>)
    requires |payload| <= MAX_PAYLOAD && (|src| + |dst|) % 2 == 1 && dport % 0x100 < 0xFF && next == dport + 1
    ensures !Passes(src, dst, Segment(src, dst, sport, dport, flags, payload))
         || !Passes(src, dst, Segment(src, dst, sport, next, flags, payload))
  {
    var pre := ReceiverHeader(src, dst, 20 + |payload|);
    TcpChecksumValid(src, dst, sport, dport, flags, payload);
    TcpChecksumValid(src, dst, sport, next, flags, payload);
    NextPort(pre, sport, dport, flags, payload);
    NotBoth(WordSum(Even(pre + BareSegment(sport, dport, flags, payload))),
            WordSum(Even(pre + BareSegment(sport, next, flags, payload))));
  }

  /** When the two addresses have an odd number of octets together, the receiver's test fails for an
      exchange or for the same one to the next port: 257 divides at most one of the two sums. */
  lemma OddAddressesFail(x: Exchange)
    requires Encodable(x) && (|x.src| + |x.dst|) % 2 == 1 && x.dport % 0x100 < 0xFF
    ensures Encodable(x.(dport := x.dport + 1)) && !(Accepted(x) && Accepted(x.(dport := x.dport + 1)))
  {
    NextPortFails(AddressOctets(x.src), AddressOctets(x.dst), x.sport, x.dport, x.dport + 1, x.flags, x.payload);
  }

  /** So there is a SYN from 10.0.1, an address of three parts, that encodes and whose receiver's test fails. */
  lemma ThreePartAddressFails() returns (x: Exchange)
    ensures x.src == [10, 0, 1] && x.dst == [10, 0, 0, 1] && x.flags == "S" && x.payload == []
    ensures EncodeFrame(x).Ok? && !Accepted(x)
  {
    x := Exchange(0.0, [10, 0, 1], [10, 0, 0, 1], 50000, 502, [], "S");
    OddAddressesFail(x);
    if Accepted(x) {
      x := x.(dport := 503);
    }
  }

  // ---------------------------------------------------------------------------
  // The frame, octet by octet
  // ---------------------------------------------------------------------------

  lemma BareLayout(sport: u16, dport: u16, flags: string, payload: seq<byte>, bare: seq<byte>)
    requires bare == BareSegment(sport, dport, flags, payload)
    ensures bare == [sport / 256, sport % 256, dport / 256, dport % 256, 0, 0, 0x03, 0xE8, 0, 0, 0x07, 0xD0, 0x50, WireFlags(flags), 0x20, 0]
                    + ([0, 0] + ([0, 0] + payload))
  {
    assert Put32(Big, 1000) == [0, 0, 0x03, 0xE8] && Put32(Big, 2000) == [0, 0, 0x07, 0xD0];
    assert Put16(Big, 8192) == [0x20, 0];
  }

  lemma FilledMiddle(front: seq<byte>, behind: seq<byte>, all: seq<byte>, sum: u16)
    requires all == front + ([0, 0] + behind)
    ensures Filled(all, |front|, sum) == front + (Put16(Big, sum) + behind)
  {
  }

  /** All octets of a segment around its checksum. */
  lemma SegmentLayout(src: seq<byte>, dst: seq<byte>, sport: u16, dport: u16, flags: string, payload: seq<byte>) returns (sum: u16)
    requires |payload| <= MAX_PAYLOAD
    ensures Segment(src, dst, sport, dport, flags, payload)
         == [sport / 256, sport % 256, dport / 256, dport % 256, 0, 0, 0x03, 0xE8, 0, 0, 0x07, 0xD0, 0x50, WireFlags(flags), 0x20, 0]
            + (Put16(Big, sum) + ([0, 0] + payload))
  {
    var bare := BareSegment(sport, dport, flags, payload);
    var front := [sport / 256, sport % 256, dport / 256, dport % 256, 0, 0, 0x03, 0xE8, 0, 0, 0x07, 0xD0, 0x50, WireFlags(flags), 0x20, 0];
    sum := ChecksumOf(PseudoHeader(src, dst, |bare|) + bare);
    BareLayout(sport, dport, flags, payload, bare);
    FilledMiddle(front, [0, 0] + payload, bare, sum);
  }

  /** SYN, ACK and FIN are bits 2, 16 and 1; a combination not known goes out as PSH and ACK. */
  function WireFlags(flags: string): byte {
    match flags
    case "S" => 2
    case "SA" => 2 + 16
    case "A" => 16
    case "FA" => 1 + 16
    case _ => 8 + 16
  }

  /** All octets of a header around its checksum. */
  lemma IpLayout(src: seq<byte>, dst: seq<byte>, total: u16) returns (sum: u16)
    requires |src| == |dst| == 4
    ensures IpHeader(src, dst, total)
         == [0x45, 0, total / 256, total % 256, 0, 0, 0x40, 0, 64, 6] + (Put16(Big, sum) + (src + dst))
  {
    var bare := BareIpHeader(src, dst, total);
    var front := [0x45, 0, total / 256, total % 256, 0, 0, 0x40, 0, 64, 6];
    sum := ChecksumOf(bare);
    assert bare == front + ([0, 0] + (src + dst));
    FilledMiddle(front, src + dst, bare, sum);
  }

  lemma MacIs(parts: seq<int>)
    requires AllOctets(parts) && |parts| == 4
    ensures Mac(parts) == [2, 0] + AddressOctets(parts)
  {
  }

  /** A frame between four-octet addresses is made-up hardware addresses, the type of IPv4, and the header and
      the segment of which the two lemmas above have every octet. */
  lemma FrameLayout(x: Exchange)
    requires Encodable(x) && |x.src| == |x.dst| == 4
    ensures var src, dst := AddressOctets(x.src), AddressOctets(x.dst);
            FrameOf(x) == ([2, 0] + dst) + ([2, 0] + src) + [8, 0] + IpHeader(src, dst, 40 + |x.payload|)
                          + Segment(src, dst, x.sport, x.dport, x.flags, x.payload)
  {
    MacIs(x.src);
    MacIs(x.dst);
    assert Put16(Big, 0x0800) == [8, 0];
  }

  // ---------------------------------------------------------------------------
  // Decoding what was encoded
  // ---------------------------------------------------------------------------

  lemma FilledOutside(data: seq<byte>, at: nat, sum: u16)
    requires at + 2 <= |data|
    ensures var f := Filled(data, at, sum);
            && |f| == |data| && (forall k :: 0 <= k < at ==> f[k] == data[k])
            && (forall k :: at + 2 <= k < |data| ==> f[k] == data[k])
  {
  }

  lemma SegmentFields(src: seq<byte>, dst: seq<byte>, sport: u16, dport: u16, flags: string, payload: seq<byte>)
    requires |payload| <= MAX_PAYLOAD
    ensures var s := Segment(src, dst, sport, dport, flags, payload);
            && s[..2] == Put16(Big, sport) && s[2..4] == Put16(Big, dport)
            && s[12] == 0x50 && s[13] == FlagBits(flags) && s[20..] == payload
  {
    var bare := BareSegment(sport, dport, flags, payload);
    FilledOutside(bare, 16, ChecksumOf(PseudoHeader(src, dst, |bare|) + bare));
    assert bare[..2] == Put16(Big, sport) && bare[2..4] == Put16(Big, dport);
    assert bare[12] == 0x50 && bare[13] == FlagBits(flags) && bare[20..] == payload;
  }

  lemma FilledSlices(data: seq<byte>, at: nat, sum: u16, lo: nat, hi: nat)
    requires at + 2 <= |data| && lo <= hi <= |data| && (hi <= at || at + 2 <= lo)
    ensures Filled(data, at, sum)[lo..hi] == data[lo..hi]
  {
    FilledOutside(data, at, sum);
  }

  lemma BareIpHeaderFields(src: seq<byte>, dst: seq<byte>, total: u16)
    ensures var h := BareIpHeader(src, dst, total);
            && h[0] == 0x45 && h[9] == 6 && h[2..4] == Put16(Big, total)
            && h[12..16] == FourOctets(src) && h[16..20] == FourOctets(dst)
  {
  }

  lemma IpHeaderFields(src: seq<byte>, dst: seq<byte>, total: u16)
    ensures var h := IpHeader(src, dst, total);
            && h[0] == 0x45 && h[9] == 6 && h[2..4] == Put16(Big, total)
            && h[12..16] == FourOctets(src) && h[16..20] == FourOctets(dst)
  {
    BareIpHeaderFields(src, dst, total);
    var bare := BareIpHeader(src, dst, total);
    FilledOutside(bare, 10, ChecksumOf(bare));
    FilledSlices(bare, 10, ChecksumOf(bare), 2, 4);
    FilledSlices(bare, 10, ChecksumOf(bare), 12, 16);
    FilledSlices(bare, 10, ChecksumOf(bare), 16, 20);
  }

  lemma DecodeSegment(src: seq<byte>, dst: seq<byte>, sport: u16, dport: u16, flags: string, payload: seq<byte>, c: Context)
    requires |payload| <= MAX_PAYLOAD
    ensures DecodeTcp(Segment(src, dst, sport, dport, flags, payload), c)
         == Ported(c, Tcp, sport, dport, FlagText(FlagBits(flags)), payload)
  {
    SegmentFields(src, dst, sport, dport, flags, payload);
    Put16RoundTrip(Big, sport);
    Put16RoundTrip(Big, dport);
  }

  lemma DecodeIpParts(header: seq<byte>, tcp: seq<byte>, ts: real, length: nat)
    requires |header| == 20 && header[0] == 0x45 && header[9] == 6 && 20 + |tcp| < 0x1_0000
    requires header[2..4] == Put16(Big, 20 + |tcp|)
    ensures DecodeIp(header + tcp, ts, length) == DecodeTcp(tcp, Context(ts, length, header[12..16], header[16..20], 4))
    ensures PacketTheorems.SelfSized(header + tcp)
  {
    var data := header + tcp;
    Put16RoundTrip(Big, 20 + |tcp|);
    assert data[2..4] == header[2..4] && data[12..16] == header[12..16] && data[16..20] == header[16..20];
    assert Slice(data, 20, |data|) == tcp;
  }

  lemma DecodeEthernetParts(macs: seq<byte>, ip: seq<byte>, ts: real)
    requires |macs| == 12
    ensures var frame := macs + Put16(Big, 0x0800) + ip;
            && Decode(frame, LINKTYPE_ETHERNET, ts) == DecodeIp(ip, ts, |frame|)
            && frame[12..14] == Put16(Big, 0x0800) && frame[14..] == ip
  {
    var frame := macs + Put16(Big, 0x0800) + ip;
    Put16RoundTrip(Big, 0x0800);
    assert frame[12..14] == Put16(Big, 0x0800) && frame[14..] == ip;
  }

  /** What any encodable exchange with at least four octets per address decodes to. */
  function Expected(x: Exchange, ts: real): Packet
    requires Encodable(x)
  {
    Packet(ts, 54 + |x.payload|, Tcp, Some(FourOctets(AddressOctets(x.src))), Some(FourOctets(AddressOctets(x.dst))),
           Some(x.sport), Some(x.dport), FlagText(FlagBits(x.flags)), x.payload, Some(4))
  }

  lemma DecodeLongAddresses(x: Exchange, ts: real)
    requires Encodable(x) && |x.src| >= 4 && |x.dst| >= 4
    ensures Decode(FrameOf(x), LINKTYPE_ETHERNET, ts) == Expected(x, ts)
    ensures PacketTheorems.Carries(FrameOf(x), ETHERTYPE_IPV4, FrameOf(x)[14..])
    ensures PacketTheorems.SelfSized(FrameOf(x)[14..]) && PacketTheorems.TagTransparent(FrameOf(x))
  {
    var src, dst := AddressOctets(x.src), AddressOctets(x.dst);
    var tcp := Segment(src, dst, x.sport, x.dport, x.flags, x.payload);
    var macs, header := Mac(x.dst) + Mac(x.src), IpHeader(src, dst, 20 + |tcp|);
    assert FrameOf(x) == macs + Put16(Big, 0x0800) + (header + tcp);
    IpHeaderFields(src, dst, 20 + |tcp|);
    DecodeEthernetParts(macs, header + tcp, ts);
    Put16RoundTrip(Big, 0x0800);
    DecodeIpParts(header, tcp, ts, |FrameOf(x)|);
    DecodeSegment(src, dst, x.sport, x.dport, x.flags, x.payload,
                  Context(ts, |FrameOf(x)|, header[12..16], header[16..20], 4));
  }

  /** The decoded packet names the exchange's own endpoints, ports and payload. */
  predicate Recovered(x: Exchange, p: Packet)
    requires Encodable(x)
  {
    && p.protocol == Tcp
    && p.src == Some(AddressOctets(x.src)) && p.dst == Some(AddressOctets(x.dst))
    && p.sport == Some(x.sport) && p.dport == Some(x.dport) && p.payload == x.payload
  }

  lemma TransportAddresses(proto: byte, body: seq<byte>, c: Context)
    ensures var p := DecodeTransport(proto, body, c);
            p.src == Some(c.src) && p.dst == Some(c.dst)
  {
  }

  /** An address pair as IPv4 or IPv6 prints it, or none at all. */
  predicate SizedAddresses(p: Packet) {
    p.src.Some? && p.dst.Some? ==> |p.src.value| == |p.dst.value| && |p.src.value| in {4, 16}
  }

  lemma IpAddresses(data: seq<byte>, ts: real, length: nat)
    ensures SizedAddresses(DecodeIp(data, ts, length))
  {
    if |data| >= 20 {
      var ihl, total := data[0] % 16 * 4, U16(Big, data[2..4]);
      TransportAddresses(data[9], if 20 <= total <= |data| then Slice(data, ihl, total) else Drop(data, ihl),
                         Context(ts, length, data[12..16], data[16..20], 4));
    }
    if |data| >= 40 {
      var end := Min(40 + U16(Big, data[4..6]), |data|);
      var (header, body) := Walk(WALK_LIMIT, data[6], data[40..end]);
      TransportAddresses(header, body, Context(ts, length, data[8..24], data[24..40], 6));
    }
  }

  lemma EthernetAddresses(data: seq<byte>, ts: real)
    ensures SizedAddresses(Decode(data, LINKTYPE_ETHERNET, ts))
  {
    if |data| >= 14 {
      IpAddresses(data[14..], ts, |data|);
    }
    if |data| >= 18 {
      IpAddresses(data[18..], ts, |data|);
    }
  }

  /** For every exchange that encodes at all, decoding undoes encoding exactly when both
      addresses have four octets; the length, version and flag text are then determined too. */
  lemma DecodeUndoesEncode(x: Exchange, ts: real)
    requires EncodeFrame(x).Ok?
    ensures Recovered(x, Decode(EncodeFrame(x).value, LINKTYPE_ETHERNET, ts)) <==> |x.src| == |x.dst| == 4
    ensures |x.src| == |x.dst| == 4 ==> Decode(EncodeFrame(x).value, LINKTYPE_ETHERNET, ts) == Expected(x, ts)
  {
    if |x.src| >= 4 && |x.dst| >= 4 {
      DecodeLongAddresses(x, ts);
    }
    EthernetAddresses(FrameOf(x), ts);
  }

  /** Neither trailing Ethernet padding nor one 802.1Q tag changes what is recovered. */
  lemma EncodedFrameRobust(x: Exchange, pad: seq<byte>, tag: seq<byte>, ts: real)
    requires Encodable(x) && |x.src| == |x.dst| == 4 && |tag| == 2
    ensures Decode(FrameOf(x) + pad, LINKTYPE_ETHERNET, ts) == Expected(x, ts).(length := |FrameOf(x)| + |pad|)
    ensures Decode(PacketTheorems.Tagged(FrameOf(x), tag), LINKTYPE_ETHERNET, ts)
         == Expected(x, ts).(length := |FrameOf(x)| + 4)
  {
    DecodeLongAddresses(x, ts);
    PacketTheorems.PaddingInvisible(FrameOf(x), ETHERTYPE_IPV4, FrameOf(x)[14..], pad, ts);
    PacketTheorems.TagInvisible(FrameOf(x), tag, ts);
  }

  // ---------------------------------------------------------------------------
  // Flags
  // ---------------------------------------------------------------------------

  function LetterSet(s: string): set<char> { set c | c in s }

  predicate KnownFlags(flags: string) { flags == "S" || flags == "SA" || flags == "A" || flags == "PA" || flags == "FA" }

  lemma FlagTextIs(octet: byte, s: string, a: string, f: string, p: string)
    requires s + a + f + p != "" && Letter(octet, 0x02, 'S') == s && Letter(octet, 0x10, 'A') == a
    requires Letter(octet, 0x01, 'F') == f && Letter(octet, 0x08, 'P') == p
    requires Letter(octet, 0x04, 'R') == Letter(octet, 0x20, 'U') == ""
    ensures FlagText(octet) == s + a + f + p
  {
    assert s + a + f + "" + p + "" == s + a + f + p;
  }

  lemma FlagTexts()
    ensures FlagText(0x02) == "S" && FlagText(0x12) == "SA" && FlagText(0x10) == "A"
    ensures FlagText(0x18) == "AP" && FlagText(0x11) == "AF"
  {
    FlagTextIs(0x02, "S", "", "", "");
    FlagTextIs(0x12, "S", "A", "", "");
    FlagTextIs(0x10, "", "A", "", "");
    FlagTextIs(0x18, "", "A", "", "P");
    FlagTextIs(0x11, "", "A", "F", "");
  }

  /** The flag letters come back as a set, in table order, so the text comes back only if it is in that
      order: "PA" returns as "AP". Letters outside the known combinations are sent as PSH+ACK. */
  lemma FlagLettersSurvive(flags: string)
    ensures KnownFlags(flags) ==> LetterSet(FlagText(FlagBits(flags))) == LetterSet(flags)
    ensures !KnownFlags(flags) ==> FlagText(FlagBits(flags)) == "AP"
    ensures FlagText(FlagBits(flags)) == flags <==> flags == "S" || flags == "SA" || flags == "A" || flags == "AP"
  {
    FlagTexts();
    assert "AP"[0] == 'A' && "PA"[0] == 'P';
    assert LetterSet("AP") == {'A', 'P'} == LetterSet("PA");
    assert LetterSet("AF") == {'A', 'F'} == LetterSet("FA");
  }
}
