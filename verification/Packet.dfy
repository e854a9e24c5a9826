/** Frame decoders: link layer, IPv4/IPv6, extension headers, TCP/UDP/ICMP. */
module Packet {
  import opened Wrappers
  import opened Bytes

  const LINKTYPE_ETHERNET := 1
  const LINKTYPE_RAW := 101
  const LINKTYPE_LINUX_SLL := 113

  /** The protocol label of a decoded packet. */
  datatype Proto =
    | Undecoded
    | Arp
    | EtherType(ethertype: u16)
    | IPv4
    | IPv6
    | Tcp
    | Udp
    | Icmp
    | Icmpv6
    | IpProto(number: byte)

  /** Address octets, standing for the text the decoders print them as. */
  type Address = seq<byte>

  datatype Packet = Packet(
    ts: real,
    length: nat,
    protocol: Proto,
    src: Option<Address>,
    dst: Option<Address>,
    sport: Option<u16>,
    dport: Option<u16>,
    flags: string,
    payload: seq<byte>,
    version: Option<nat>)

  /** What an IP decoder has established before the transport header is read. */
  datatype Context = Context(ts: real, length: nat, src: Address, dst: Address, version: nat)

  function Bare(ts: real, length: nat, protocol: Proto, version: Option<nat>): Packet {
    Packet(ts, length, protocol, None, None, None, None, "", [], version)
  }

  function Routed(c: Context, protocol: Proto, payload: seq<byte>): Packet {
    Packet(c.ts, c.length, protocol, Some(c.src), Some(c.dst), None, None, "", payload, Some(c.version))
  }

  function Ported(c: Context, protocol: Proto, sport: u16, dport: u16, flags: string, payload: seq<byte>): Packet {
    Packet(c.ts, c.length, protocol, Some(c.src), Some(c.dst), Some(sport), Some(dport), flags, payload, Some(c.version))
  }

  // ---------------------------------------------------------------------------
  // Transport
  // ---------------------------------------------------------------------------

  predicate HasBit(octet: byte, bit: byte)
    requires bit > 0
  {
    octet / bit % 2 == 1
  }

  function Letter(octet: byte, bit: byte, letter: char): string
    requires bit > 0
  {
    if HasBit(octet, bit) then [letter] else ""
  }

  /** The letters whose bits are set, always in this order; a dot when there are none. */
  function FlagText(octet: byte): string {
    var letters := Letter(octet, 0x02, 'S') + Letter(octet, 0x10, 'A') + Letter(octet, 0x01, 'F')
                   + Letter(octet, 0x04, 'R') + Letter(octet, 0x08, 'P') + Letter(octet, 0x20, 'U');
    if letters == "" then "." else letters
  }

  function DecodeTcp(data: seq<byte>, c: Context): Packet {
    if |data| < 20 then Routed(c, Tcp, [])
    else
      var dataOffset := data[12] / 16 * 4;
      var payload := if 20 <= dataOffset <= |data| then data[dataOffset..] else [];
      Ported(c, Tcp, U16(Big, data[..2]), U16(Big, data[2..4]), FlagText(data[13]), payload)
  }

  function DecodeUdp(data: seq<byte>, c: Context): Packet {
    if |data| < 8 then Routed(c, Udp, [])
    else
      var ulen := U16(Big, data[4..6]);
      Ported(c, Udp, U16(Big, data[..2]), U16(Big, data[2..4]), "", data[8..if 8 <= ulen <= |data| then ulen else |data|])
  }

  function DecodeIcmp(data: seq<byte>, c: Context, protocol: Proto): Packet {
    if |data| < 2 then Routed(c, protocol, []) else Routed(c, protocol, Drop(data, 4))
  }

  function DecodeTransport(proto: byte, body: seq<byte>, c: Context): Packet {
    if proto == 6 then DecodeTcp(body, c)
    else if proto == 17 then DecodeUdp(body, c)
    else if proto == 1 then DecodeIcmp(body, c, Icmp)
    else if proto == 58 then DecodeIcmp(body, c, Icmpv6)
    else if proto == 59 then Routed(c, IPv6, [])
    else Routed(c, IpProto(proto), [])
  }

  // ---------------------------------------------------------------------------
  // IP
  // ---------------------------------------------------------------------------

  function DecodeIpv4(data: seq<byte>, ts: real, length: nat): Packet {
    if |data| < 20 then Bare(ts, length, IPv4, Some(4))
    else
      var ihl := data[0] % 16 * 4;
      var total := U16(Big, data[2..4]);
      var body := if 20 <= total <= |data| then Slice(data, ihl, total) else Drop(data, ihl);
      DecodeTransport(data[9], body, Context(ts, length, data[12..16], data[16..20], 4))
  }

  predicate IsVariable(h: byte) { h == 0 || h == 43 || h == 60 || h == 51 }

  predicate IsFixed8(h: byte) { h == 44 }

  /** The octets to skip when `header` is an extension header present in `body`, 0 when the walk stops. */
  function HeaderSize(header: byte, body: seq<byte>): (n: nat)
    ensures n > 0 ==> |body| >= 2
  {
    if IsVariable(header) && |body| >= 2 then var len: int := body[1]; (len + 1) * 8
    else if IsFixed8(header) && |body| >= 8 then 8
    else 0
  }

  /** At most n extension headers walked over. */
  function Walk(n: nat, header: byte, body: seq<byte>): (byte, seq<byte>) {
    if n == 0 || HeaderSize(header, body) == 0 then (header, body)
    else Walk(n - 1, body[0], Drop(body, HeaderSize(header, body)))
  }

  const WALK_LIMIT := 8

  method SkipV6Extensions(nextHeader: byte, body: seq<byte>) returns (header: byte, rest: seq<byte>)
    ensures (header, rest) == Walk(WALK_LIMIT, nextHeader, body)
  {
    header, rest := nextHeader, body;
    for k := 0 to WALK_LIMIT
      invariant Walk(WALK_LIMIT, nextHeader, body) == Walk(WALK_LIMIT - k, header, rest)
    {
      var size := 0;
      if IsVariable(header) && |rest| >= 2 {
        var len: int := rest[1];
        size := (len + 1) * 8;
      } else if IsFixed8(header) && |rest| >= 8 {
        size := 8;
      } else {
        break;
      }
      header, rest := rest[0], Drop(rest, size);
    }
  }

  function DecodeIpv6(data: seq<byte>, ts: real, length: nat): Packet {
    if |data| < 40 then Bare(ts, length, IPv6, Some(6))
    else
      var end := Min(40 + U16(Big, data[4..6]), |data|);
      var (header, body) := Walk(WALK_LIMIT, data[6], data[40..end]);
      DecodeTransport(header, body, Context(ts, length, data[8..24], data[24..40], 6))
  }

  function DecodeIp(data: seq<byte>, ts: real, length: nat): Packet {
    if data == [] then Bare(ts, length, Undecoded, None)
    else if data[0] / 16 == 4 then DecodeIpv4(data, ts, length)
    else if data[0] / 16 == 6 then DecodeIpv6(data, ts, length)
    else Bare(ts, length, Undecoded, None)
  }

  // ---------------------------------------------------------------------------
  // Link layer
  // ---------------------------------------------------------------------------

  const ETHERTYPE_IPV4: u16 := 0x0800
  const ETHERTYPE_IPV6: u16 := 0x86DD
  const ETHERTYPE_ARP: u16 := 0x0806
  const ETHERTYPE_VLAN: u16 := 0x8100

  function DecodeEthertype(ethertype: u16, payload: seq<byte>, ts: real, length: nat): Packet {
    if ethertype == ETHERTYPE_IPV4 || ethertype == ETHERTYPE_IPV6 then DecodeIp(payload, ts, length)
    else if ethertype == ETHERTYPE_ARP then Bare(ts, length, Arp, None)
    else Bare(ts, length, EtherType(ethertype), None)
  }

  /** An 802.1Q tag, when there is room for one, is stepped over once. */
  function DecodeEthernet(data: seq<byte>, ts: real, length: nat): Packet {
    if |data| < 14 then Bare(ts, length, Undecoded, None)
    else
      var ethertype := U16(Big, data[12..14]);
      if ethertype == ETHERTYPE_VLAN && |data| >= 18
      then DecodeEthertype(U16(Big, data[16..18]), data[18..], ts, length)
      else DecodeEthertype(ethertype, data[14..], ts, length)
  }

  function DecodeLinuxSll(data: seq<byte>, ts: real, length: nat): Packet {
    if |data| < 16 then Bare(ts, length, Undecoded, None)
    else DecodeEthertype(U16(Big, data[14..16]), data[16..], ts, length)
  }

  /** The whole decoder. Every index and field read above is in range, so Python's
      `except` clause never has anything to catch. */
  function Decode(data: seq<byte>, linktype: nat, ts: real): Packet {
    if linktype == LINKTYPE_ETHERNET then DecodeEthernet(data, ts, |data|)
    else if linktype == LINKTYPE_LINUX_SLL then DecodeLinuxSll(data, ts, |data|)
    else if linktype == LINKTYPE_RAW then DecodeIp(data, ts, |data|)
    else Bare(ts, |data|, Undecoded, None)
  }
}
