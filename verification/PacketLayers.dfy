/** What the decoders make of each layer, in terms of the octets of its header. */
module PacketLayers {
  import opened Wrappers
  import opened Bytes
  import opened Packet
  import PacketTheorems

  // ---------------------------------------------------------------------------
  // Link layers
  // ---------------------------------------------------------------------------

  predicate IpType(ethertype: u16) { ethertype == 0x0800 || ethertype == 0x86DD }

  function EthernetFrame(macs: seq<byte>, ethertype: u16, body: seq<byte>): seq<byte>
    requires |macs| == 12
  {
    macs + Put16(Big, ethertype) + body
  }

  function TaggedFrame(macs: seq<byte>, tag: u16, ethertype: u16, body: seq<byte>): seq<byte>
    requires |macs| == 12
  {
    macs + (Put16(Big, 0x8100) + Put16(Big, tag)) + Put16(Big, ethertype) + body
  }

  /** Linux cooked capture: fourteen octets, the ethertype, the packet. */
  function CookedFrame(head: seq<byte>, ethertype: u16, body: seq<byte>): seq<byte>
    requires |head| == 14
  {
    head + Put16(Big, ethertype) + body
  }

  lemma HeaderThenType(head: seq<byte>, ethertype: u16, body: seq<byte>)
    ensures var s, n := head + Put16(Big, ethertype) + body, |head|;
            && |s| == n + 2 + |body| && s[..n] == head && U16(Big, s[n..n + 2]) == ethertype && s[n + 2..] == body
  {
    var s, n := head + Put16(Big, ethertype) + body, |head|;
    Put16RoundTrip(Big, ethertype);
    assert s[n..n + 2] == Put16(Big, ethertype);
  }

  lemma TagInFront(macs: seq<byte>, tag: u16, ethertype: u16, body: seq<byte>)
    requires |macs| == 12
    ensures var s := TaggedFrame(macs, tag, ethertype, body);
            |s| == 18 + |body| && U16(Big, s[12..14]) == 0x8100 && U16(Big, s[16..18]) == ethertype && s[18..] == body
  {
    var s := TaggedFrame(macs, tag, ethertype, body);
    Put16RoundTrip(Big, 0x8100);
    Put16RoundTrip(Big, ethertype);
    assert s[12..14] == Put16(Big, 0x8100) && s[16..18] == Put16(Big, ethertype);
  }

  /** An IP packet is the same packet on every link: raw, on Ethernet, tagged or not, or cooked, and under
      either of the two ethertypes; only the length of the frame differs. */
  lemma LinksAgree(macs: seq<byte>, tag: u16, head: seq<byte>, ethertype: u16, ip: seq<byte>, ts: real)
    requires |macs| == 12 && |head| == 14 && IpType(ethertype)
    ensures var p := Decode(ip, 101, ts);
            && Decode(EthernetFrame(macs, ethertype, ip), 1, ts) == p.(length := 14 + |ip|)
            && Decode(TaggedFrame(macs, tag, ethertype, ip), 1, ts) == p.(length := 18 + |ip|)
            && Decode(CookedFrame(head, ethertype, ip), 113, ts) == p.(length := 16 + |ip|)
  {
    HeaderThenType(macs, ethertype, ip);
    HeaderThenType(head, ethertype, ip);
    TagInFront(macs, tag, ethertype, ip);
    PacketTheorems.IpResized(ip, ts, |ip|, 14 + |ip|);
    PacketTheorems.IpResized(ip, ts, |ip|, 16 + |ip|);
    PacketTheorems.IpResized(ip, ts, |ip|, 18 + |ip|);
  }

  function NoPacket(ts: real, length: nat, protocol: Proto, version: Option<nat>): Packet {
    Packet(ts, length, protocol, None, None, None, None, "", [], version)
  }

  /** Anything else is named by its ethertype, on every link alike, and not looked into. */
  lemma OtherTypes(macs: seq<byte>, tag: u16, head: seq<byte>, ethertype: u16, body: seq<byte>, ts: real)
    requires |macs| == 12 && |head| == 14 && !IpType(ethertype)
    ensures var protocol := if ethertype == 0x0806 then Arp else EtherType(ethertype);
            && (ethertype != 0x8100 ==>
                Decode(EthernetFrame(macs, ethertype, body), 1, ts) == NoPacket(ts, 14 + |body|, protocol, None))
            && Decode(TaggedFrame(macs, tag, ethertype, body), 1, ts) == NoPacket(ts, 18 + |body|, protocol, None)
            && Decode(CookedFrame(head, ethertype, body), 113, ts) == NoPacket(ts, 16 + |body|, protocol, None)
  {
    HeaderThenType(macs, ethertype, body);
    HeaderThenType(head, ethertype, body);
    TagInFront(macs, tag, ethertype, body);
  }

  /** Where the header is not all there, or the link or the version is not known, nothing is read. */
  lemma NothingRead(data: seq<byte>, linktype: nat, ts: real)
    ensures linktype !in {1, 101, 113} ==> Decode(data, linktype, ts) == NoPacket(ts, |data|, Undecoded, None)
    ensures |data| < 14 ==> Decode(data, 1, ts) == NoPacket(ts, |data|, Undecoded, None)
    ensures |data| < 16 ==> Decode(data, 113, ts) == NoPacket(ts, |data|, Undecoded, None)
    ensures data == [] || data[0] / 16 !in {4, 6} ==> Decode(data, 101, ts) == NoPacket(ts, |data|, Undecoded, None)
    ensures 0 < |data| < 20 && data[0] / 16 == 4 ==> Decode(data, 101, ts) == NoPacket(ts, |data|, IPv4, Some(4))
    ensures 0 < |data| < 40 && data[0] / 16 == 6 ==> Decode(data, 101, ts) == NoPacket(ts, |data|, IPv6, Some(6))
  {
  }

  // ---------------------------------------------------------------------------
  // IPv4
  // ---------------------------------------------------------------------------

  /** A header of 5 to 15 words: service octet, length, identification and fragment, time to live, protocol,
      checksum, addresses, options. */
  function Ipv4Header(service: byte, total: u16, fragment: seq<byte>, ttl: byte, proto: byte, checksum: u16,
                      src: Address, dst: Address, options: seq<byte>): (s: seq<byte>)
    requires |fragment| == |src| == |dst| == 4 && |options| <= 40
    ensures |s| == 20 + |options|
  {
    [0x40 + (20 + |options|) / 4, service] + Put16(Big, total) + fragment + [ttl, proto] + Put16(Big, checksum)
    + src + dst + options
  }

  lemma Ipv4Fields(service: byte, total: u16, fragment: seq<byte>, ttl: byte, proto: byte, checksum: u16,
                   src: Address, dst: Address, options: seq<byte>, rest: seq<byte>)
    requires |fragment| == |src| == |dst| == 4 && |options| <= 40
    ensures var h := Ipv4Header(service, total, fragment, ttl, proto, checksum, src, dst, options);
            var s := h + rest;
            && s[0] == 0x40 + (20 + |options|) / 4 && s[2..4] == Put16(Big, total) && s[9] == proto
            && s[12..16] == src && s[16..20] == dst
  {
    var h := Ipv4Header(service, total, fragment, ttl, proto, checksum, src, dst, options);
    var s := h + rest;
    assert s[2..4] == h[2..4] == Put16(Big, total);
    assert s[12..16] == h[12..16] == src;
    assert s[16..20] == h[16..20] == dst;
  }

  /** What the total length leaves of the octets behind the header; all of them where it cannot be right. */
  function Within(total: u16, size: nat, rest: seq<byte>): seq<byte> {
    if total < 20 || total > size + |rest| then rest else if total < size then [] else rest[..total - size]
  }

  lemma Ipv4Read(data: seq<byte>, size: nat, total: u16, proto: byte, src: Address, dst: Address, rest: seq<byte>, ts: real, length: nat)
    requires 20 <= size <= 60 && size % 4 == 0 && |data| == size + |rest|
    requires data[0] == 0x40 + size / 4 && data[2..4] == Put16(Big, total) && data[9] == proto
    requires data[12..16] == src && data[16..20] == dst && data[size..] == rest
    ensures DecodeIp(data, ts, length) == DecodeTransport(proto, Within(total, size, rest), Context(ts, length, src, dst, 4))
  {
    Put16RoundTrip(Big, total);
    assert data[0] % 16 * 4 == size;
    if 20 <= total <= |data| {
      assert Slice(data, size, total) == Within(total, size, rest);
    }
  }

  /** Header options never reach the transport decoder, nor do octets beyond a total length that can be
      right. */
  lemma Ipv4Decoded(service: byte, total: u16, fragment: seq<byte>, ttl: byte, proto: byte, checksum: u16,
                    src: Address, dst: Address, options: seq<byte>, rest: seq<byte>, ts: real, length: nat)
    requires |fragment| == |src| == |dst| == 4 && |options| <= 40 && |options| % 4 == 0
    ensures DecodeIp(Ipv4Header(service, total, fragment, ttl, proto, checksum, src, dst, options) + rest, ts, length)
         == DecodeTransport(proto, Within(total, 20 + |options|, rest), Context(ts, length, src, dst, 4))
  {
    var h := Ipv4Header(service, total, fragment, ttl, proto, checksum, src, dst, options);
    Ipv4Fields(service, total, fragment, ttl, proto, checksum, src, dst, options, rest);
    Ipv4Read(h + rest, |h|, total, proto, src, dst, rest, ts, length);
  }

  // ---------------------------------------------------------------------------
  // IPv6
  // ---------------------------------------------------------------------------

  /** Version, class and flow label, payload length, next header, hop limit, addresses. */
  function Ipv6Header(flow: seq<byte>, payload: u16, next: byte, hops: byte, src: Address, dst: Address): (s: seq<byte>)
    requires |flow| == 4 && |src| == |dst| == 16
    ensures |s| == 40
  {
    flow + Put16(Big, payload) + [next, hops] + src + dst
  }

  lemma Ipv6Fields(flow: seq<byte>, payload: u16, next: byte, hops: byte, src: Address, dst: Address, rest: seq<byte>)
    requires |flow| == 4 && |src| == |dst| == 16
    ensures var s := Ipv6Header(flow, payload, next, hops, src, dst) + rest;
            && s[0] == flow[0] && s[4..6] == Put16(Big, payload) && s[6] == next
            && s[8..24] == src && s[24..40] == dst && s[40..] == rest
  {
    var h := Ipv6Header(flow, payload, next, hops, src, dst);
    var s := h + rest;
    assert s[4..6] == h[4..6] == Put16(Big, payload);
    assert s[8..24] == h[8..24] == src;
    assert s[24..40] == h[24..40] == dst;
  }

  /** The walk is given the payload the length field leaves, or all there is. */
  lemma Ipv6Decoded(flow: seq<byte>, payload: u16, next: byte, hops: byte, src: Address, dst: Address, rest: seq<byte>,
                    ts: real, length: nat)
    requires |flow| == 4 && flow[0] / 16 == 6 && |src| == |dst| == 16
    ensures var (header, body) := Walk(8, next, if payload <= |rest| then rest[..payload] else rest);
            DecodeIp(Ipv6Header(flow, payload, next, hops, src, dst) + rest, ts, length)
            == DecodeTransport(header, body, Context(ts, length, src, dst, 6))
  {
    var data := Ipv6Header(flow, payload, next, hops, src, dst) + rest;
    Ipv6Fields(flow, payload, next, hops, src, dst, rest);
    Put16RoundTrip(Big, payload);
    assert data[40..Min(40 + payload, |data|)] == if payload <= |rest| then rest[..payload] else rest;
  }

  // ---------------------------------------------------------------------------
  // Transport
  // ---------------------------------------------------------------------------

  /** A TCP header of 5 to 15 words. */
  function TcpHeader(sport: u16, dport: u16, numbers: seq<byte>, flags: byte, rest: seq<byte>, options: seq<byte>): (s: seq<byte>)
    requires |numbers| == 8 && |rest| == 6 && |options| <= 40
    ensures |s| == 20 + |options|
  {
    Put16(Big, sport) + Put16(Big, dport) + numbers + [(20 + |options|) / 4 * 16, flags] + rest + options
  }

  /** The ports and flags come back, and the payload is what follows the header and its options. */
  lemma TcpDecoded(sport: u16, dport: u16, numbers: seq<byte>, flags: byte, rest: seq<byte>, options: seq<byte>,
                   payload: seq<byte>, c: Context)
    requires |numbers| == 8 && |rest| == 6 && |options| <= 40 && |options| % 4 == 0
    ensures DecodeTransport(6, TcpHeader(sport, dport, numbers, flags, rest, options) + payload, c)
         == Packet(c.ts, c.length, Tcp, Some(c.src), Some(c.dst), Some(sport), Some(dport), FlagText(flags), payload, Some(c.version))
  {
    var h := TcpHeader(sport, dport, numbers, flags, rest, options);
    var data := h + payload;
    Put16RoundTrip(Big, sport);
    Put16RoundTrip(Big, dport);
    assert data[..2] == h[..2] == Put16(Big, sport);
    assert data[2..4] == h[2..4] == Put16(Big, dport);
    assert h[12] == (20 + |options|) / 4 * 16 && h[13] == flags;
    assert data[|h|..] == payload;
  }

  function Portless(c: Context, protocol: Proto, payload: seq<byte>): Packet {
    Packet(c.ts, c.length, protocol, Some(c.src), Some(c.dst), None, None, "", payload, Some(c.version))
  }

  /** Both kinds of ICMP are handed on without their first four octets. */
  lemma IcmpDecoded(head: seq<byte>, rest: seq<byte>, c: Context)
    requires |head| == 4
    ensures DecodeTransport(1, head + rest, c) == Portless(c, Icmp, rest)
    ensures DecodeTransport(58, head + rest, c) == Portless(c, Icmpv6, rest)
  {
    assert (head + rest)[4..] == rest;
  }

  /** Other protocols are named and not looked into, nor are headers that are not all there. */
  lemma OtherTransports(proto: byte, body: seq<byte>, c: Context)
    ensures proto !in {1, 6, 17, 58} ==>
      DecodeTransport(proto, body, c) == Portless(c, if proto == 59 then IPv6 else IpProto(proto), [])
    ensures |body| < 20 ==> DecodeTransport(6, body, c) == Portless(c, Tcp, [])
    ensures |body| < 8 ==> DecodeTransport(17, body, c) == Portless(c, Udp, [])
    ensures |body| < 4 ==> DecodeTransport(1, body, c) == Portless(c, Icmp, [])
    ensures |body| < 4 ==> DecodeTransport(58, body, c) == Portless(c, Icmpv6, [])
    ensures |body| >= 20 && !(20 <= body[12] / 16 * 4 <= |body|) ==> DecodeTransport(6, body, c).payload == []
  {
  }

  // ---------------------------------------------------------------------------
  // Flags
  // ---------------------------------------------------------------------------

  /** The letters from k on whose bits are set: SYN, ACK, FIN, RST, PSH, URG. */
  function LettersFrom(octet: byte, k: nat): string
    requires k <= 6
    decreases 6 - k
  {
    if k == 6 then ""
    else (if octet / [2, 16, 1, 4, 8, 32][k] % 2 == 1 then ["SAFRPU"[k]] else "") + LettersFrom(octet, k + 1)
  }

  lemma JoinSix(a: string, b: string, c: string, d: string, e: string, f: string)
    ensures a + b + c + d + e + f == a + (b + (c + (d + (e + (f + "")))))
  {
  }

  lemma LetterIs(octet: byte, k: nat, bit: byte, letter: char, rest: string)
    requires k < 6 && bit == [2, 16, 1, 4, 8, 32][k] && letter == "SAFRPU"[k] && rest == LettersFrom(octet, k + 1)
    ensures LettersFrom(octet, k) == Letter(octet, bit, letter) + rest
  {
  }

  lemma LettersJoined(octet: byte, a: string, b: string, c: string, d: string, e: string, f: string)
    requires a == Letter(octet, 2, 'S') && b == Letter(octet, 16, 'A') && c == Letter(octet, 1, 'F')
    requires d == Letter(octet, 4, 'R') && e == Letter(octet, 8, 'P') && f == Letter(octet, 32, 'U')
    ensures LettersFrom(octet, 0) == a + b + c + d + e + f
  {
    LetterIs(octet, 5, 32, 'U', "");
    LetterIs(octet, 4, 8, 'P', f + "");
    LetterIs(octet, 3, 4, 'R', e + (f + ""));
    LetterIs(octet, 2, 1, 'F', d + (e + (f + "")));
    LetterIs(octet, 1, 16, 'A', c + (d + (e + (f + ""))));
    LetterIs(octet, 0, 2, 'S', b + (c + (d + (e + (f + "")))));
    JoinSix(a, b, c, d, e, f);
  }

  /** The letters of the bits that are set, in this order, or a dot when there are none. */
  lemma FlagTextExact(octet: byte)
    ensures FlagText(octet) == if LettersFrom(octet, 0) == "" then "." else LettersFrom(octet, 0)
  {
    LettersJoined(octet, Letter(octet, 2, 'S'), Letter(octet, 16, 'A'), Letter(octet, 1, 'F'),
                  Letter(octet, 4, 'R'), Letter(octet, 8, 'P'), Letter(octet, 32, 'U'));
  }
}
